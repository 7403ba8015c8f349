# Notification list and sign-up record of the Snaazr app

The Snaazr mobile app keeps almost all of its logic in a hosted backend. Two pieces run on the client and are modelled here.

- **Notification screen** (`notifications.dfy`, module `Notifications`). The screen holds two pieces of state: the list of notifications and the unread counter shown in the header badge. Three operations change them:
  - the load step puts a fixed list of three records in place;
  - `markAsRead(id)` sets `read` on every record with that id, then counts again;
  - `clearNotifications` empties the list and zeroes the counter.

  The class `NotificationScreen` carries both fields. Its methods are specified by the pure functions `CountUnread` (the `filter(...).length` count) and `MarkRead` (the `map` over the list). `Valid()` states the central invariant: the counter equals the number of unread records. The constructor, `Load`, `MarkAsRead` and `ClearNotifications` each establish it from any prior state. `UpdateUnreadCount` establishes it only when it is given the stored list, as the load step and `markAsRead` do. The category label shown under each message (first letter upper-cased) is the function `TypeLabel`. `ScreenWalkthrough` is a client that loads, marks a missing id, marks id 1 twice, reloads and clears. It checks each resulting state from the method contracts alone.
- **Sign-up record** (`login.dfy`, module `Login`). After the OAuth flow returns, the login screen builds one row for the `Users` table. The name is first name and last name joined with no separator. The email is the sign-up address unchanged. The username is `email.split('@')[0]` followed by `"atSnaZr"`. The row is built only when a session id came back and the sign-up details carry a non-empty address. `split` is modelled generally as `Split`, with `Join` as its inverse.

Three behaviours of the code differ from what one might expect, and the model follows the code:
- After the load and after `markAsRead` the code recounts the unread records in full rather than decrementing the counter. `clearNotifications` sets the counter straight to 0. A decrement by exactly one holds only when ids are distinct, as `MarkReadCountDistinct` states.
- `markAsRead` marks every record carrying the id, not just one.
- The load step has no failure path, because its list is a literal.

The JavaScript field `type` is named `kind`, because `type` is a Dafny keyword. JavaScript truthiness of `createdSessionId` is modelled as "present and non-empty".

## Model

| member | source | states |
|---|---|---|
| Notifications.CountUnread | Apps/Screens/Notifications/NotificationScreen.jsx:42-45 | the count is at most the list length; it is 0 exactly when every record is read, and equals the length exactly when none is |
| Notifications.MarkRead | Apps/Screens/Notifications/NotificationScreen.jsx:55-57 | same length and order; every record keeps its id, kind and message; its `read` becomes true when its id matches and is unchanged otherwise, so no record goes from read to unread |
| Notifications.MarkReadAbsent | Apps/Screens/Notifications/NotificationScreen.jsx:56 | marking an id that no record carries leaves the list unchanged |
| Notifications.MarkReadCountAbsent | Apps/Screens/Notifications/NotificationScreen.jsx:56 | marking an absent id leaves the unread count unchanged |
| Notifications.MarkReadIdempotent | Apps/Screens/Notifications/NotificationScreen.jsx:54-60 | marking the same id twice gives the same list as marking it once |
| Notifications.MarkReadNeverIncreases | Apps/Screens/Notifications/NotificationScreen.jsx:54-60 | marking never raises the unread count |
| Notifications.MarkReadCountDistinct | Apps/Screens/Notifications/NotificationScreen.jsx:54-60 | with distinct ids, marking the id of record k lowers the count by 1 if that record was unread and by 0 if it was read |
| Notifications.Fetched | Apps/Screens/Notifications/NotificationScreen.jsx:20-24 | the fixed list has three records with distinct ids, two of them unread |
| Notifications.TypeLabel | Apps/Screens/Notifications/NotificationScreen.jsx:85 | the label has the length of the kind; its first character is the ASCII upper-case of the kind's first and is no lower-case letter; the rest is unchanged; an empty kind gives an empty label |
| Notifications.TypeLabelIdempotent | Apps/Screens/Notifications/NotificationScreen.jsx:85 | capitalising an already capitalised label changes nothing |
| Notifications.NotificationScreen.constructor | Apps/Screens/Notifications/NotificationScreen.jsx:8-9 | the screen starts with an empty list and a count of 0, which satisfies the invariant |
| Notifications.NotificationScreen.UpdateUnreadCount | Apps/Screens/Notifications/NotificationScreen.jsx:42-45 | the counter becomes the number of unread records of the given list; the stored list is untouched; the invariant holds when the given list is the stored one |
| Notifications.NotificationScreen.Load | Apps/Screens/Notifications/NotificationScreen.jsx:19-31 | whatever the prior state, the list becomes exactly the three fixed records in order, the count becomes 2, and the invariant holds |
| Notifications.NotificationScreen.MarkAsRead | Apps/Screens/Notifications/NotificationScreen.jsx:54-60 | the list becomes MarkRead of the old list and the invariant holds afterwards; from a valid state the count never rises; an absent id leaves list and count unchanged; with distinct ids the count drops by exactly 1 when the target was unread and by 0 otherwise |
| Notifications.NotificationScreen.ClearNotifications | Apps/Screens/Notifications/NotificationScreen.jsx:66-69 | whatever the prior state, the list is empty, the count is 0, and the invariant holds |
| Login.Split | Apps/Screens/LoginScreen/LoginScreen.jsx:33 | `split` yields at least one piece and no piece contains the separator |
| Login.JoinSplit | Apps/Screens/LoginScreen/LoginScreen.jsx:33 | joining the pieces back with the separator gives the original string |
| Login.SplitFirstPiece | Apps/Screens/LoginScreen/LoginScreen.jsx:33 | the first piece is a prefix of the input that either is the whole input or is followed by the separator |
| Login.EmailPrefix | Apps/Screens/LoginScreen/LoginScreen.jsx:33 | `split('@')[0]` contains no `@`, is a prefix of the address, and is either the whole address or followed by its first `@` |
| Login.EmailPrefixUnique | Apps/Screens/LoginScreen/LoginScreen.jsx:33 | any `@`-free prefix of the address that ends it or stops at an `@` is the prefix EmailPrefix returns |
| Login.EmailPrefixNoAt | Apps/Screens/LoginScreen/LoginScreen.jsx:33 | an address without `@` is its own prefix |
| Login.Username | Apps/Screens/LoginScreen/LoginScreen.jsx:33 | the username ends with the literal `atSnaZr`, and what precedes it is the address's prefix |
| Login.UsernameNoAt | Apps/Screens/LoginScreen/LoginScreen.jsx:33 | a derived username contains no `@` |
| Login.NewUserRecord | Apps/Screens/LoginScreen/LoginScreen.jsx:21-35 | a row is produced if and only if a non-empty session id is present and the sign-up details have a non-empty address; the row's name is first name followed by last name, its email is the address unchanged, and its username is Username of the address |

## Left out

- Rendering, styles, the list and scroll layout, and the badge and empty-list display: these are presentation only.
- The OAuth flow and `setActive`: these are calls into an authentication library that is not part of this model. The `createdSessionId` and `signUp` values it returns are the input of `NewUserRecord`.
- The insert into the `Users` table, its `.select()`, and the logging of its result and of OAuth errors: these are remote calls and console output.
- The `useEffect` scheduling and the asynchronous form of the load: the load is one synchronous step.
- JavaScript's coercion of a missing first or last name to the text `"undefined"`: the sign-up fields are assumed to be present strings.
- Notifications.TypeLabel: upper-cases ASCII letters only. JavaScript's `toUpperCase` also maps other letters, some of them to more than one character.
- The other screens, navigation and configuration files: they hold no logic beyond rendering, remote calls, animation or declarative settings.
