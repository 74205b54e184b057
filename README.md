# Chit-fund group and social-graph rules, modelled in Dafny

The Chit-Fund System lets registered users form savings groups ("chits") of
1 to 12 months, invite each other into them, start them once every month has
a participant, record each month's winner, and connect with each other as
friends. This project models the rule-bearing core of that system and proves
what those rules guarantee:

- **User documents** (`UserModel`, from `models/User.js`): the email and
  mobile regular expressions as a small pattern language with a proved
  closed form, the gender enum, and the set of failing validators of a user
  document.
- **Group documents** (`GroupModel`, from `models/Group.js`): the schema's
  bounds, trimming and defaults; `canStart`; and a `GroupDocument` class whose
  methods `AddParticipant`, `RemoveParticipant` and `AddWinner` change the
  participant list and the lazily allocated per-month winner arrays in place.
- **Connection graph** (`ConnectionGraph`, from `config/neo4j.js`): a `Graph`
  class holding user nodes and a multiset of REQUESTED / CONNECTED_TO
  relationships (a Cypher `CREATE` always adds a relationship, so parallel
  ones are possible). Request, accept and remove are multiset updates, and an
  invariant is kept: relationships join existing nodes, at most one pending
  request per ordered pair, and CONNECTED_TO is symmetric.
- **Resolvers** (`Resolvers`, from `graphql/resolvers.js`): each mutation's
  ordered guard chain as a pure function, and a `Backend` class holding the
  stores (users in insertion order, balances, the graph, groups, and the
  owner / participant / invitation / winner relations kept by the graph
  helpers that are imported but not shown). Its methods apply the guards
  and then the writes, and keep a store invariant. `myGroups` is a pure
  function over the rows and documents it reads.
- **Registration form** (`RegisterForm` and `JsNumber`, from
  `frontend/src/components/Register.jsx`): `validateForm` and the arguments
  `handleSubmit` sends. It rests on a model of JavaScript's `Number(string)`
  and `parseInt(string)`, following sections 7.1.4.1 and 19.2.5 of the
  ECMAScript 2023 language specification, and on `String.prototype.trim`.
- **Countdown** (`Countdown`, from `frontend/src/components/Bidding.jsx`):
  `calculateTimeLeft`, written with real division, `Math.floor` and the
  truncating `%` as the source does, proved equal to integer division and
  remainder.

Modules: `Wrappers` (Option, Result, Outcome), `Strings` (JavaScript
whitespace and trimming), `UserModel`, `GroupModel`, `ConnectionGraph`,
`JsNumber`, `RegisterForm`, `Countdown`, `Resolvers`.

Behaviour of the code that the model makes explicit:

- `startGroup` rejects only `started`, so a completed group with a full
  participant list can be started again (`Resolvers.StartCheck`).
- `addWinner` accepts months 0 to `totalMonths - 1`
  (`GroupModel.AddWinnerCheck`).

- Two users who request each other and then both accept are joined by two
  CONNECTED_TO relationships in each direction
  (`ConnectionGraph.CrossedRequestsDoubleConnection`).
- `rejectConnectionRequest` calls `deleteConnectionRequest`, which is never
  imported. Once its check passes it always throws, and nothing is deleted
  (`Resolvers.Backend.RejectConnectionRequest`).
- `recordWinner` checks neither the winner nor the month.
- `acceptGroupInvite` does not check the group's capacity.
- The schema has no `participants`, `winners` or `winningBids` paths, yet the
  instance methods of `models/Group.js` use them. As written,
  `this.participants` is undefined on a loaded document, so `addParticipant`
  and `removeParticipant` throw a TypeError at models/Group.js:59 and :77
  once their status and owner checks pass. `GroupDocument` instead models the
  behaviour those method bodies describe, on the arrays they expect. The
  resolvers never call these methods; they keep membership in the graph
  helpers.

Outside inputs the model takes as parameters: the current time (`now`), the
id of a new group document (`groupId`, required to be unused), and the
authenticated caller (`caller`, `None` when there is no valid token).

## Model

| member | source | states |
|---|---|---|
| Strings.TrimStart | frontend/src/components/Register.jsx:60 | the result is a suffix of the input; everything removed is JavaScript whitespace; the result does not start with whitespace |
| Strings.TrimEnd | frontend/src/components/Register.jsx:36 | the result is a prefix of the input; everything removed is whitespace; the result does not end with whitespace |
| Strings.Trim | models/Group.js:4-8 | the trimmed name is the input with exactly its leading and trailing whitespace removed: a contiguous slice of the input starting right after the leading whitespace, everything outside it is whitespace, and it neither starts nor ends with whitespace |
| UserModel.EmailCharacterised | models/User.js:4 | a string matches the email expression exactly when it splits into a non-empty run of `[A-Za-z0-9._-]`, `@`, a non-empty run of `[A-Za-z0-9.-]`, `.`, and 2 to 6 ASCII letters that end it |
| UserModel.EmailHasOneAt | models/User.js:4 | a valid email contains exactly one `@` |
| UserModel.MobileCharacterised | models/User.js:7 | a string matches the mobile expression exactly when it has 10 characters, all digits |
| UserModel.EmailIsNotMobile | models/User.js:4-7 | no string is both a valid email and a valid mobile number |
| UserModel.ParseGender | models/User.js:43-46 | a string is accepted exactly when it is the name of one of the three genders, and then as that gender |
| UserModel.GenderRoundTrip | models/User.js:43-46 | each gender's name parses back to that gender |
| UserModel.ValidationErrors | models/User.js:9-46 | a user document fails on username exactly when it is empty, on email or mobile exactly when the expression rejects it, and on gender exactly when a given gender is outside the enum |
| GroupModel.GroupErrors | models/Group.js:3-24 | the failing paths: empty name, empty owner, pool below 1000, months outside 1..12 |
| GroupModel.NewGroup | models/Group.js:3-45 | a group saves exactly when the trimmed name and the owner are non-empty, the pool is at least 1000 and months are in 1..12; a saved group is schema-valid, has the trimmed name, status waiting, month 0, creation time now and no dates; otherwise every failing path is reported |
| GroupModel.Without | models/Group.js:77-79 | filtering keeps exactly the entries other than the user and never lengthens the list |
| GroupModel.AddParticipantCheck | models/Group.js:55-64 | the checks run in order: started, then full (at or above `totalMonths`), then already present; success exactly when none applies |
| GroupModel.RemoveParticipantCheck | models/Group.js:70-76 | started is reported first, then removing the owner; success exactly when neither applies |
| GroupModel.AddWinnerCheck | models/Group.js:84-90 | success exactly when the group is started and `0 <= month < totalMonths`; not started is reported first |
| GroupModel.AddParticipantKeepsInvariant | models/Group.js:59-65 | an accepted add keeps the list within `totalMonths` and free of duplicates |
| GroupModel.WithoutKeepsNoDuplicates | models/Group.js:77-79 | removing keeps a duplicate-free list duplicate-free |
| GroupModel.WithoutIdempotent | models/Group.js:77-79 | removing twice is the same as removing once |
| GroupModel.WithoutAbsent | models/Group.js:77-79 | removing an absent user changes nothing |
| GroupModel.WithoutConcat | models/Group.js:77-79 | filtering distributes over concatenation, so the kept entries stay in their original order |
| GroupModel.GroupDocument.AddParticipant | models/Group.js:55-67 | the outcome is the guard chain's; on success the user is appended at the end, otherwise the list is unchanged; nothing else changes |
| GroupModel.GroupDocument.RemoveParticipant | models/Group.js:70-81 | the outcome is the guard chain's; on success the list is the filtered list, otherwise unchanged; nothing else changes |
| GroupModel.GroupDocument.AddWinner | models/Group.js:84-101 | the outcome is the guard chain's; on success each missing table is created as `totalMonths` nulls, and only slot `month` of each is written; on failure both tables are untouched |
| ConnectionGraph.RequestStep | config/neo4j.js:30-60 | fails exactly when a user node is missing, then exactly when any relationship already goes from→to; otherwise adds one REQUESTED from→to |
| ConnectionGraph.RequestIgnoresReverse | config/neo4j.js:35-38 | a relationship to→from does not block a request from→to |
| ConnectionGraph.RequestKeepsInvariant | config/neo4j.js:47-52 | a new request keeps the graph invariant |
| ConnectionGraph.AcceptWithoutRequest | config/neo4j.js:67-72 | with no matching request, accepting changes nothing |
| ConnectionGraph.AcceptSwapsRequest | config/neo4j.js:67-72 | accepting the pending request removes it and adds CONNECTED_TO in both directions, and nothing else |
| ConnectionGraph.AcceptKeepsInvariant | config/neo4j.js:67-72 | accepting keeps the invariant, CONNECTED_TO symmetry included |
| ConnectionGraph.RemoveBothOrNothing | config/neo4j.js:124-128 | removal deletes both directions or leaves the graph unchanged; with either direction missing it is unchanged |
| ConnectionGraph.RemoveKeepsInvariant | config/neo4j.js:124-128 | removing keeps the invariant |
| ConnectionGraph.CrossedRequestsDoubleConnection | config/neo4j.js:35-38 | two crossed requests, both accepted, leave two CONNECTED_TO relationships in each direction |
| ConnectionGraph.Graph.CreateUserNode | config/neo4j.js:13-27 | adds the user's node and no relationship; keeps the invariant |
| ConnectionGraph.Graph.CreateConnectionRequest | config/neo4j.js:30-60 | outcome and new relationships are those of `RequestStep`; on failure nothing is created; keeps the invariant |
| ConnectionGraph.Graph.AcceptConnectionRequest | config/neo4j.js:63-81 | relationships become `AcceptStep` of the old ones; keeps the invariant |
| ConnectionGraph.Graph.RemoveConnection | config/neo4j.js:120-137 | relationships become `RemoveStep` of the old ones; keeps the invariant |
| ConnectionGraph.Graph.GetPendingRequests | config/neo4j.js:84-99 | exactly the sources of REQUESTED relationships into the user |
| ConnectionGraph.Graph.GetUserConnections | config/neo4j.js:102-117 | exactly the targets of CONNECTED_TO relationships out of the user |
| ConnectionGraph.ConnectionsSymmetric | config/neo4j.js:69-71 | under the invariant, `a` lists `b` as a connection exactly when `b` lists `a` |
| RegisterForm.Utf16Length | frontend/src/components/Register.jsx:32 | the password length counts UTF-16 code units: at least one and at most two per character |
| RegisterForm.ValidateForm | frontend/src/components/Register.jsx:27-41 | mismatched passwords are reported first, then a password shorter than 6, then a non-empty age that `Number` reads as NaN or below 18; true exactly when none applies |
| RegisterForm.SubmitArgs | frontend/src/components/Register.jsx:54-61 | the confirmation is dropped, the other fields pass unchanged, an empty gender becomes null, and the age is null exactly when the field is empty |
| RegisterForm.HandleSubmit | frontend/src/components/Register.jsx:43-62 | nothing is sent exactly when validation fails, and then its message is shown; otherwise the submitted arguments are sent |
| RegisterForm.EmptyAgeAccepted | frontend/src/components/Register.jsx:36-39 | an empty age never blocks submission and is sent as null |
| RegisterForm.DecimalMagnitude | frontend/src/components/Register.jsx:36 | a decimal literal's value lies between its whole part and the next integer |
| RegisterForm.NumberOfDecimal | frontend/src/components/Register.jsx:36 | `Number` reads an optionally signed decimal literal as its exact value |
| RegisterForm.ParseIntOfDecimal | frontend/src/components/Register.jsx:60 | `parseInt` reads a signed digit run as its signed value, stopping at a point or whitespace after it |
| RegisterForm.ParseIntOfDecimalField | frontend/src/components/Register.jsx:60 | `parseInt` of a field whose trimmed text is a decimal literal is the literal's signed whole part |
| RegisterForm.AcceptedDecimalAge | frontend/src/components/Register.jsx:36-39 | a decimal age with at most 14 fraction digits that validation accepts has integer digits, no minus sign and a whole part of at least 18 |
| RegisterForm.NumberWithoutDigits | frontend/src/components/Register.jsx:36 | a literal without integer digits is NaN or below 1 |
| RegisterForm.DecimalAgeSubmitted | frontend/src/components/Register.jsx:36-39 | an age typed as a plain decimal with at most 14 fraction digits that passes validation is sent as its whole part, and that whole part is at least 18 |
| RegisterForm.ExponentAgeSentAsTwo | frontend/src/components/Register.jsx:36-39 | as written: age `2e1` passes validation as 20 and is sent as 2 |
| RegisterForm.TwoE1IsNumberInput | frontend/src/components/Register.jsx:184-189 | `2e1` is a valid floating-point number, so the number input can hold it |
| RegisterForm.TwoE1AgeField | frontend/src/components/Register.jsx:36-60 | the age field `2e1` passes the age check and is sent as 2 |
| RegisterForm.ValidateFormIntended | frontend/src/components/Register.jsx:36-39 | corrected check: passes exactly when the original passes and the age that is sent is absent or at least 18; otherwise the original's message, or the age message |
| RegisterForm.HandleSubmitIntended | frontend/src/components/Register.jsx:43-62 | the submit path guarded by the corrected check |
| RegisterForm.IntendedSendsAdultAge | frontend/src/components/Register.jsx:60 | with the corrected check, the age sent is null or a whole number of at least 18 |
| RegisterForm.IntendedAgreesOnDecimals | frontend/src/components/Register.jsx:36-39 | for ages typed as plain decimals with at most 14 fraction digits, the corrected check and submit path behave exactly like the original |
| Countdown.TimeLeftIsIntegerDivision | frontend/src/components/Bidding.jsx:17-25 | for a positive difference: days = ⌊d / 86 400 000⌋, minutes = ⌊d / 60 000⌋ mod 60, seconds = ⌊d / 1000⌋ mod 60; otherwise all zero |
| Countdown.TimeLeftBounds | frontend/src/components/Bidding.jsx:19-21 | days are never negative; minutes and seconds are in 0..59 |
| Countdown.TimeLeftDecomposes | frontend/src/components/Bidding.jsx:19-21 | the days, the hour of the day that is never shown, the minutes, the seconds and the leftover milliseconds add up to the difference |
| Countdown.OneHourShowsNothing | frontend/src/components/Bidding.jsx:19-21 | one hour before the shuffle date the countdown shows 0 days, 0 minutes, 0 seconds |
| Countdown.Countdown | frontend/src/components/Bidding.jsx:11-28 | a countdown is computed exactly when the status is started and a shuffle date exists |
| Resolvers.FirstSharing | graphql/resolvers.js:394-400 | the first user in insertion order who shares the username, email or mobile, or none when no user does |
| Resolvers.RegisterCheck | graphql/resolvers.js:370-412 | the username is first checked against other users' emails and mobiles, then the email and mobile against usernames, then the first sharing user picks username / email / mobile taken; passes exactly when no stored user clashes in any of these ways |
| Resolvers.RegisterKeepsConsistent | graphql/resolvers.js:370-465 | registering a user who passes the checks and validates keeps users distinct and valid, each with a balance row and a graph node |
| Resolvers.RegisterKeepsDistinct | graphql/resolvers.js:370-412 | registering a user who passes the checks keeps all identifiers of different users distinct |
| Resolvers.LoginIdentifierUnique | graphql/resolvers.js:470-476 | with distinct, valid users, a login identifier (username, email or mobile) names at most one user |
| Resolvers.InviteCheck | graphql/resolvers.js:621-638 | in order: caller not owner, group missing, group started, invitee already participates, invitee already invited; passes exactly when none applies |
| Resolvers.AcceptInviteCheck | graphql/resolvers.js:653-666 | a missing or started group is an error; otherwise the result is `false` without an invitation and `true` with one |
| Resolvers.StartCheck | graphql/resolvers.js:689-698 | in order: not owner, missing, already started, participant count differs from `totalMonths`; a waiting or completed group with a full list passes |
| Resolvers.RecordWinnerCheck | graphql/resolvers.js:714-719 | in order: not owner, missing, status other than started; passes exactly for the owner of a started group |
| Resolvers.LeaveCheck | graphql/resolvers.js:735-749 | in order: missing, caller not a participant, caller is the owner, group started; passes exactly when none applies |
| Resolvers.SendRequestCheck | graphql/resolvers.js:524-531 | a missing target is reported before self-connection |
| Resolvers.PendingCheck | graphql/resolvers.js:542-546 | passes exactly when the sender is among the pending requesters |
| Resolvers.RemoveConnectionCheck | graphql/resolvers.js:572-580 | a missing target user, then a target who is not a connection |
| Resolvers.Lookup | graphql/resolvers.js:624-625 | for a well-formed group id, `findById` finds the group exactly when it is stored, and then returns it |
| Resolvers.Backend.Register | graphql/resolvers.js:367-465 | the conflict checks, then validation on save; on success the user is appended, its graph node created and its balance row set to 0; on failure nothing changes; the store invariant is kept |
| Resolvers.NewGroupKeepsConsistent | graphql/resolvers.js:601-604 | storing a new waiting group under an unused id, with its owner as owner and only participant, keeps owners, participants and invitations consistent with the groups |
| Resolvers.Backend.StoreGroup | graphql/resolvers.js:601-604 | the writes of `createGroup`: the group under its id, its owner, and the owner as sole participant; nothing else changes and the store invariant is kept |
| Resolvers.Backend.CreateGroup | graphql/resolvers.js:589-615 | the schema decides; a saved group is stored with its owner as owner and only participant; otherwise nothing changes |
| Resolvers.Backend.InviteToGroup | graphql/resolvers.js:617-647 | the outcome is `InviteCheck` on the current stores; on success exactly one invitation is added and nothing else changes |
| Resolvers.Backend.AcceptGroupInvite | graphql/resolvers.js:649-668 | the outcome is `AcceptInviteCheck`; on `true` the caller's invitations to the group are dropped and the caller participates; otherwise nothing changes |
| Resolvers.Backend.StartGroup | graphql/resolvers.js:685-708 | the outcome is `StartCheck` with the graph's participant count; on success only the group's status (started) and shuffle date (now) change |
| Resolvers.Backend.RecordWinner | graphql/resolvers.js:710-728 | the outcome is `RecordWinnerCheck`; on success the winner is recorded as given |
| Resolvers.Backend.LeaveGroup | graphql/resolvers.js:730-759 | the outcome is `LeaveCheck`; on success only the caller's participation in that group is removed |
| Resolvers.Backend.SendConnectionRequest | graphql/resolvers.js:521-537 | the guard chain, then the graph request, whose failure is passed on; relationships change only on success |
| Resolvers.Backend.AcceptConnectionRequest | graphql/resolvers.js:539-552 | only a pending sender is accepted, and then the graph accept is applied |
| Resolvers.Backend.RejectConnectionRequest | graphql/resolvers.js:554-567 | without a pending request it reports none pending; with one it throws, the deleting function being undefined; it never changes anything |
| Resolvers.Backend.RemoveConnection | graphql/resolvers.js:569-586 | the guard chain, then the graph removal of both directions |
| Resolvers.OwnerIsNeverInvited | graphql/resolvers.js:628-632 | under the store invariant a group's owner cannot be invited to it |
| Resolvers.OwnerChecksMeanOwner | graphql/resolvers.js:621-622 | passing the owner check of invite or start means being the stored owner; a passed start means exactly `totalMonths` participants |
| Resolvers.InviteNeverReportsMissingGroup | graphql/resolvers.js:621-625 | under the store invariant the owner check already rejects a missing group, so "Group not found" is never reported |
| Resolvers.LastRow | graphql/resolvers.js:250-253 | the lookup map holds, for each group id, a row with that id, and none exactly when no row has the id |
| Resolvers.LastRowIsLast | graphql/resolvers.js:250-253 | the row kept for a group is its last: no later row has the same id |
| Resolvers.StatusLabel | graphql/resolvers.js:295 | the status shown is `pending` exactly when the document has none |
| Resolvers.RoleFor | graphql/resolvers.js:277-279 | `owner` when the group's owner is the user; otherwise the stored role if non-empty, else `participant` |
| Resolvers.ViewOf | graphql/resolvers.js:290-312 | the enriched group keeps the document's id, owner and months, its status label and its role |
| Resolvers.Views | graphql/resolvers.js:256-320 | at most one group is listed per document |
| Resolvers.ViewsSound | graphql/resolvers.js:256-320 | every listed group is the enriched group of a document with a membership row and a known owner |
| Resolvers.ViewsComplete | graphql/resolvers.js:256-320 | every document with a membership row and a known owner is listed |
| Resolvers.ViewsConcat | graphql/resolvers.js:256-320 | the listing keeps the documents' order: listing two runs of documents one after the other gives the two listings one after the other |
| Resolvers.MyGroups | graphql/resolvers.js:210-328 | refused without authentication and for another user's name; the user themself always gets a list, which is `Views` of the documents in their order: exactly the enriched groups of selected documents |
| Resolvers.ViewsWithoutRows | graphql/resolvers.js:225-228 | with no membership rows the listing is empty, as the early `return []` gives |
| Resolvers.OwnGroupsShowOwner | graphql/resolvers.js:277-279 | the user's own groups are listed with role `owner`, whatever the membership row says |

## Left out

- Password hashing and comparison, and token signing and checking, are foreign calls. The password does not appear in `UserDoc`, and the caller's identity is a parameter.
- `login`, including its `lastLogin` write, is not modelled. `Resolvers.LoginIdentifierUnique` covers only its lookup by username, email or mobile.
- The resolvers not named above are not modelled: the queries other than `myGroups`, `rejectGroupInvite`, and the declared but unimplemented bidding, winner selection and fund mutations.
- The bodies of the graph helpers imported by the resolvers are not shown (`isGroupOwner`, `isGroupParticipant`, `getGroupParticipants`, `createGroupNode`, `createGroupInvite`, `getPendingGroupInvites`, `acceptGroupInvite`, `removeGroupParticipant`, `recordWinner`, `getUserGroups`). They are modelled as reads and writes of owner, participant, invitation and winner relations. `createGroupNode` is taken to record the owner as owner and participant. `acceptGroupInvite` is taken to fail with "No invitation found for this group" when the invitation is missing, and otherwise to drop it and add the participant.
- Resolvers.MyGroups: the rows of `getUserGroups` and the documents read are inputs, not derived from `Backend`. Dates, payment counters and owner contact fields of the enriched group are not modelled.
- config/mysql.js is not part of this model. The balance table is a map, and a failing insert is not modelled.
- Each store write is modelled as succeeding. A failure between writes to different stores (for example the user saved but no graph node) is not modelled.
- Mongo's unique indexes on email and mobile are not modelled. For registrations made one at a time the conflict checks already exclude duplicates; see the line on concurrent requests below.
- Validation messages of the schema (`... is not a valid email address!`) are summarised as the set of failing fields.
- Resolvers.Backend.Register: the age is stored as given. The GraphQL transport of the form's NaN age (it arrives as null) and Mongoose's cast of numbers are not modelled.
- `createUserNode` can create several nodes for the same username. Nodes are a set here, which is only the same because registration rejects a taken username.
- Socket relay, React rendering and hooks, the `setInterval` timer and locale date formatting are I/O or UI.
- `findByParticipant` (models/Group.js:104-108) is a query with `populate` and is not modelled.
- JsNumber: numbers are exact rationals, and `parseInt` results are exact integers. Rounding to a double is not modelled.
- RegisterForm.AcceptedDecimalAge: holds only for fractional parts of at most 14 digits. With more, `Number` can round a value below 18 up to 18; for example `17.99999999999999999` is accepted and sent as 17.
- RegisterForm.DecimalAgeSubmitted: limited to at most 14 fraction digits for the same rounding reason. The whole part that is sent is exact only up to 2^53, where `parseInt` starts to round.
- RegisterForm.IntendedAgreesOnDecimals: limited to at most 14 fraction digits. With more, the original check accepts `17.99999999999999999`, which the corrected check rejects.
- FormData.age ranges over every string. A `type="number"` input holds only the empty string or a valid floating-point number (`RegisterForm.NumberInputValue`), so inputs such as `Infinity`, `0x14`, `+20` or padded ages cannot occur. The lemmas about general strings therefore also cover inputs the page never produces.
- RegisterForm.IntendedSendsAdultAge: the server's `age: Int` is a 32-bit GraphQL integer, so an age of 2^31 or more passes the corrected check but is still refused on its way to the server. That limit is not modelled.
- Requests are modelled one at a time. `createConnectionRequest` checks for a relationship and creates one in two separate queries, so two concurrent requests for the same pair can both pass the check. `ConnectionGraph.RequestKeepsInvariant` does not cover that, and under concurrent requests "at most one pending request per ordered pair" need not hold.
- Resolvers.RegisterKeepsDistinct and Resolvers.LoginIdentifierUnique: hold only for registrations made one at a time. `register` runs its three `findOne` checks and its `save` as separate queries, and `username` has no unique index (models/User.js:10), so two concurrent registrations with the same username can both succeed and a username can then name two users. Concurrent email or mobile duplicates would be refused by the unique indexes, which are not modelled.
- ConnectionGraph.Graph.GetPendingRequests and ConnectionGraph.Graph.GetUserConnections: return sets, while the source returns one list entry per relationship. The repeated friend of `ConnectionGraph.CrossedRequestsDoubleConnection` appears once here; the only reader in scope, `.includes`, gives the same answer on either.
- GroupModel.GroupRecord: `totalPoolAmount` is a whole number, while the schema declares it `Float!` in GraphQL and `Number` in Mongoose. Fractional pool amounts such as 999.5 are not modelled. The same holds for the winning amount of `recordWinner` (`amount: Float!`), which `Resolvers.WinRecord` and `Resolvers.Backend.RecordWinner` keep as a whole number.
- Resolvers.Lookup: group ids are taken to be well-formed ObjectIds. For any other id (for example `abc`) Mongoose's `findById` rejects with a CastError, which `acceptGroupInvite` and `leaveGroup` pass on as `Cast to ObjectId failed ...` (graphql/resolvers.js:653, :735); the model answers "Group not found" instead. `inviteToGroup`, `startGroup` and `recordWinner` run the owner check first, which already refuses such an id.
- Only REQUESTED and CONNECTED_TO relationships between users are modelled. No other User→User relationship type is assumed, although the request check would also be blocked by any such relationship.
- Countdown.Countdown: the shuffle date is an integer number of milliseconds. A date string that `new Date` cannot parse is not modelled.
- Countdown.TimeLeftIsIntegerDivision: the real division is exact. The source divides doubles, which only differs for differences beyond 2^53 milliseconds.

## Findings

| source | as written | input that shows it | evidently intended | confidence | as-written member | corrected member |
|---|---|---|---|---|---|---|
| frontend/src/components/Register.jsx:36-39, 60 | the age is checked with `Number` (via `isNaN` and `<`) but sent with `parseInt`, which stops at the first non-digit | age `2e1`, a value the number input accepts, passes as 20 and is sent as 2; also `17.99999999999999999`, which `Number` rounds to 18 and `parseInt` reads as 17 (double rounding is outside this model) | an age that passes validation is sent as a whole number of at least 18 | not executed | RegisterForm.ExponentAgeSentAsTwo | RegisterForm.IntendedSendsAdultAge |
