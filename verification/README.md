# Washify core in Dafny

Washify is a small React prototype of a laundry marketplace. Students look for
laundry sellers and sellers track orders. Almost all of it is rendering. This
project models the few rules underneath, as pure functions over immutable
values:

- the user registry and login session kept in browser storage
  (`src/utils/storage.js`);
- the registration form's checks before `saveUser` is called
  (`src/pages/Register.jsx`);
- the case-insensitive seller search (`src/pages/StudentHome.jsx`);
- the order-status update behind the seller's status modal
  (`src/pages/SellerDashboard.jsx`).

Files and modules:

| file | module | what it holds |
|---|---|---|
| `results.dfy` | `Results` | `Option` (JavaScript `null`/`undefined`) and `Result` (a value or a thrown error) |
| `text.dfy` | `Text` | ASCII `toLowerCase`/`toUpperCase`, and `includes` with a reference definition by occurrence position |
| `storage.dfy` | `Storage` | `User`, `Session`, `Store`, and the operations `getUsers`, `saveUser`, `loginUser`, `getSession`, `logoutUser` |
| `register.dfy` | `Register` | the role from the query string, form validation, and the submit handler |
| `seller_search.dfy` | `SellerSearch` | the seller filter |
| `seller_dashboard.dfy` | `SellerDashboard` | orders, the status modal, and status updates |

The store is `Store(users, session)`. Each field is `None` when its storage key
is absent. An operation that would throw returns `Err` with the error, and the
caller keeps the old store, since nothing was written. `saveUser` calls
`Date.now()` for the new id; here that id is the parameter `freshId`. Nothing
claims such ids are unique. Roles and statuses stay strings because the code
never validates them. `"student"`, `"seller"` and the three modal choices are
named constants.

`Storage.Run` and `SellerDashboard.Replay` apply a sequence of user actions.
The invariants over whole histories are proved on them: emails stay distinct,
the user list only grows, and statuses stay within the offered set.

Roles are lowercase free strings; the code never validates them. The
dashboard keeps its orders in component state, seeded from
`src/data/mockData.js`; `src/utils/storage.js` does not persist orders.

## Model

| member | source | states |
|---|---|---|
| Storage.GetUsers | src/utils/storage.js:6-9 | A store with no users key reads as the empty list. Otherwise the stored list is returned. |
| Storage.NewUser | src/utils/storage.js:20-26 | A caller-supplied id overrides the generated one. Name, email, password, role and area are copied. rating = reviews = 0 exactly when the role is "seller"; otherwise both are absent, whatever the caller passed. |
| Storage.SaveUser | src/utils/storage.js:12-31 | Fails with DuplicateEmail iff some stored user has exactly the new email; nothing is then written. On success the new list is the old list plus exactly one record at the end, the session is untouched, and the record's rating is 0 iff the role is "seller". The appended and returned record is exactly the spread record `Storage.NewUser` builds. Distinct emails stay distinct. |
| Storage.RunKeepsEmailsDistinct | src/utils/storage.js:16-29 | Any sequence of registrations, logins and logouts keeps emails pairwise distinct, because `saveUser` is the only writer of users. |
| Storage.ReachableEmailsDistinct | src/utils/storage.js:16-29 | Every store reached from a fresh browser has pairwise distinct emails. |
| Storage.RunIsAppendOnly | src/utils/storage.js:28-30 | Across any sequence of operations, the earlier user list is a prefix of the later one. Records are never changed or removed. |
| Storage.FindCredentials | src/utils/storage.js:36 | Returns the position of the first user whose email and password both match exactly. It returns none iff no user matches. |
| Storage.LoginUser | src/utils/storage.js:34-56 | Fails with InvalidCredentials iff no user matches both email and password. Fails with RoleMismatch only for a matching user whose role differs from the expected one, and the error carries that role. The user checked is the first match `find` returns: a RoleMismatch names that user's role, and a success holds that user's session. On success the only change is the session. It replaces any earlier session and is what `getSession` then returns. |
| Storage.Message | src/utils/storage.js:17-43 | The thrown messages are "Email already registered" and "Invalid email or password". The role-mismatch message contains the user's actual role as a substring. |
| Storage.SaveUserRecord | src/utils/storage.js:20-30 | A successful save returns a record with the submitted email and role, whose rating is 0 exactly when the role is "seller". |
| Storage.LoginUserOutcomes | src/utils/storage.js:36-55 | A login never raises DuplicateEmail. A role mismatch names the role of a matching user, which differs from the expected one. A success is the session of a matching user and has the expected role. |
| Storage.MessageDeterminesError | src/utils/storage.js:17-43 | Two errors give the same message iff they are the same error, including the same role for a role mismatch. |
| Storage.LoginFindsUniqueUser | src/utils/storage.js:36-44 | With distinct emails, logging in with a stored user's email and password succeeds iff the role matches. Otherwise it fails naming that user's role. |
| Storage.RegisterThenLogin | src/utils/storage.js:12-56 | On any store, after a successful registration, logging in with the same credentials succeeds exactly for the registered role, with that user's session. Any other role fails with RoleMismatch naming the registered role. |
| Storage.GetSession | src/utils/storage.js:59-62 | Returns the stored session, or null when the session key is absent. |
| Storage.LogoutUser | src/utils/storage.js:65-67 | After logout `getSession` returns null. The users key is untouched. |
| Storage.LogoutIdempotent | src/utils/storage.js:65-67 | Logging out twice is the same as logging out once. |
| Storage.LogoutEndsSession | src/utils/storage.js:59-67 | Whatever happened before, a final logout leaves no active session. |
| Register.RoleFromQuery | src/pages/Register.jsx:12 | A missing or empty `role` parameter means "student". Any other value is taken as given. |
| Register.ValidateRegistration | src/pages/Register.jsx:28-45 | An empty name, email or password gives "Please fill in all required fields". Otherwise a non-student with an empty area gives "Service area is required for partners"; a student may leave the area empty. Otherwise the save request is exactly {name, email, password, role, area} from the form. |
| Register.HandleRegister | src/pages/Register.jsx:24-51 | Navigates to the role's login page iff validation passes and the email is new; the error line is then empty. Otherwise the store is unchanged and an error is shown: the validation message when validation fails, and "Email already registered" when only the email was taken. On success exactly one user with the form's fields, the role and the fresh id is appended. The new store is exactly what `saveUser` writes for the save request: the session is untouched and the record is the one `Storage.NewUser` builds, so rating/reviews are set only for sellers. |
| Register.SecondRegistrationRejected | src/pages/Register.jsx:38-50 | Submitting the same form again after a successful registration fails with "Email already registered" and changes nothing. |
| Text.Lower | src/pages/StudentHome.jsx:15-16 | Lowercasing keeps the length, maps each character on its own, and leaves no ASCII capital letter. |
| Text.IncludesIff | src/pages/StudentHome.jsx:15-16 | `includes` holds exactly when the term occurs at some position of the string. |
| SellerSearch.FilterSellers | src/pages/StudentHome.jsx:14-17 | A seller is in the result iff it is in the input and its lowercased name or area includes the lowercased term. The result is an order-preserving subsequence of the input, no longer than it, and equally long iff every seller matches. |
| SellerSearch.FilterKeepsEveryMatchingCopy | src/pages/StudentHome.jsx:14-17 | Each seller appears in the result as often as in the input if it matches, and not at all otherwise, so duplicates are not collapsed. |
| SellerSearch.MatchesIffOccurs | src/pages/StudentHome.jsx:14-17 | A seller matches iff the lowercased term occurs somewhere in its lowercased name or area. |
| SellerSearch.EmptyTermKeepsAll | src/pages/StudentHome.jsx:14-17 | An empty search term returns every seller, in order. |
| SellerSearch.FilterDependsOnLowercaseTerm | src/pages/StudentHome.jsx:15-16 | Two terms with the same lowercase form select the same sellers. |
| SellerSearch.FilterIgnoresTermCase | src/pages/StudentHome.jsx:15-16 | Upper-casing or lower-casing the term does not change the result. |
| SellerDashboard.SetStatus | src/pages/SellerDashboard.jsx:17-19 | The length is kept. Each order with the selected id gets the new status and keeps its id, student name and dates. Every other order is unchanged. |
| SellerDashboard.HandleStatusUpdate | src/pages/SellerDashboard.jsx:15-23 | With no order selected, nothing changes. Otherwise each order with the selected id gets the new status and nothing else, other orders and the list's length and order are kept, and the selection is cleared. |
| SellerDashboard.SelectOrder | src/pages/SellerDashboard.jsx:106 | Clicking an order card selects it and leaves the orders alone. |
| SellerDashboard.DismissModal | src/pages/SellerDashboard.jsx:36 | Clicking the backdrop clears the selection and leaves the orders alone. |
| SellerDashboard.UpdateKeepsStatusesValid | src/pages/SellerDashboard.jsx:46-49 | If every status is Pending, In Progress or Completed, choosing one of those modal buttons keeps it so. |
| SellerDashboard.ReplayKeepsStatusesValid | src/pages/SellerDashboard.jsx:12-49 | Start from offered statuses and take only modal choices. Over any sequence of selections, choices and dismissals, every status stays in the offered set. |
| SellerDashboard.ReplayKeepsIds | src/pages/SellerDashboard.jsx:17-19 | No sequence of dashboard events changes the number of orders or the id at any position. |

## Left out

- Browser storage and JSON encoding: the two storage keys are fields of `Store`. There is no serialisation round trip, so the loss of `undefined` fields on reload is not modelled.
- `Date.now()` ids: the id is a parameter. The clock, and whether its ids collide, is outside the model.
- Rendering, styling, routing, `navigate` and the hard redirect in `src/context/AuthContext.jsx`: navigation appears only as the target path in `Register.RegisterOutcome`.
- `src/context/AuthContext.jsx` as a whole: it only holds the session in React state. `Storage.LoginUser` models the login directly, because the context does not provide the `login` that `src/pages/Login.jsx` asks for.
- The browser's own `required`-attribute checks on the form inputs: they run outside the handler.
- Order placement, order history and chat: `src/utils/storage.js` implements none of them, so `sendMessage` and order persistence are not modelled.
- Floating-point fields (`amount`, `pricePerKg`, `rating` values shown in cards) and date/locale formatting: they are left out of `Order` and `Seller`.
- The status-colour switches and stat cards: these are constant display lookups.
- Text.LowerChar: lowercases ASCII letters only, because full Unicode case mapping is not reproducible here.
- Text.Lower: inherits the ASCII-only mapping, so non-ASCII search terms compare case-sensitively in the model.
- SellerSearch.FilterIgnoresTermCase: holds only for the ASCII case mapping. In JavaScript `"ß".toUpperCase()` is `"SS"`, so for a seller named "Straße" the term "ß" matches but its upper-cased form does not.
- `src/data/mockData.js`: this is seed data, not behaviour.
