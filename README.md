# Tournvia platform — a Dafny model of its bookkeeping

Tournvia is a browser front end for Free Fire tournaments. It has a hosted backend
(profiles, teams, notifications and team-invitation tables) and an in-memory demo data
set. This project models the parts of the client that keep books:

- **Team membership** (`teams.dfy`). The four backend tables become maps and a sequence
  inside one `TeamStore` object. Every team handler of the client is one method that
  acts for a given profile: create a team, request to join by code, search a player,
  invite, accept or decline an invitation, accept or decline a join request, remove a
  member, leave, dissolve, and clear an orphaned team reference. Each method states its
  guard chain in the order the handler runs it, and states the whole new state. Each one
  also preserves `TeamStore.Valid`, which says:
  - ids are fresh;
  - an admin flag comes with a team, and the flagged profile is the admin of that team
    while the team exists;
  - no player holds two pending invitations to the same team.
- **Wallet** (`wallet.dfy`): joining a tournament, adding money and withdrawing. These
  update the balance and the tournament table in place and append to the shared
  transaction ledger. `Wallet.Valid` ties the balance to the ledger: the balance equals
  the opening balance plus the amounts of this session's transactions. It also keeps the
  balance non-negative. The opening balance and the point in the ledger where the session
  began are fixed: every handler states that it leaves them as they were.
- **Pure rules**:
  - the registration form checks (`registration.dfy`);
  - the tournament list filter (`tournaments.dfy`);
  - the relative-time labels (`timeago.dfy`);
  - the team-code generator, with its random draws as input (`teamcode.dfy`);
  - the configuration constants, validation patterns and game-mode table (`config.dfy`);
  - the demo data set's lookup helpers and the consistency of its sample users and
    teams (`data.dfy`).

`text.dfy` and `lists.dfy` give the JavaScript string and array operations these rely
on. These are `trim`, ASCII case mapping, `includes`, UTF-16 `length`, decimal
rendering, `find` and `filter`.

Backend queries follow the client library's rules:
- a `.single()` query succeeds only when exactly one row matches (`Teams.Single`);
- a `.maybeSingle()` query returns a row only when exactly one matches;
- reading a property of a missing row throws, and the handler's catch block reports it.
  The model returns `Failed(LookupFailed)` there and changes nothing.

## Model

| member | source | states |
|---|---|---|
| Text.TrimStart | app.js:204-205 | The result is a suffix of the input; every dropped character is JavaScript whitespace and the result does not start with whitespace |
| Text.TrimEnd | app.js:204-205 | The result is a prefix of the input; every dropped character is whitespace and the result does not end with whitespace |
| Text.Trim | app.js:204-205 | `trim`: the result is no longer than the input, has no whitespace at either end, and a field without whitespace is returned unchanged |
| Text.TrimSlice | app.js:204-205 | A trimmed field is the input cut at two positions, with only whitespace before the first and from the second on |
| Text.TrimIsInfix | app.js:1238 | A trimmed field is a contiguous slice of the input whose ends are not whitespace |
| Text.TrimIdempotent | app.js:1441 | Trimming an already trimmed field changes nothing |
| Text.ToUpper | app.js:1318 | Same length; each character is mapped to upper case (ASCII letters) |
| Text.ToUpperIdempotent | app.js:1318 | An upper-cased code holds no lower-case ASCII letter, and upper-casing it again changes nothing |
| Text.ToLower | app.js:709 | Same length; each character is mapped to lower case (ASCII letters) |
| Text.Includes | app.js:715 | `includes`: a needle longer than the haystack never occurs, and a prefix of the haystack always does |
| Text.IncludesEmpty | app.js:715 | Every name includes the empty search string |
| Text.Utf16Length | app.js:215 | A string's JavaScript length lies between its number of characters and twice that, and equals it exactly when no character lies outside the Basic Multilingual Plane |
| Text.Decimal | app.js:2170 | A count is written as a non-empty run of digits with no leading zero |
| Text.DecimalRoundTrip | app.js:2170 | Reading the written digits back gives the count |
| Lists.FirstIndex | data.js:665-667 | The index of the first element satisfying the test, and none exactly when no element does |
| Lists.Find | data.js:655-657 | `find` returns an element satisfying the test with none before it, and returns nothing exactly when none does |
| Lists.Filter | data.js:670-672 | `filter` keeps exactly the elements satisfying the test and is never longer than its input |
| Lists.FilterConcat | data.js:670-672 | Filtering distributes over concatenation, so the kept elements stay in their original order |
| Lists.FilterCount | data.js:670-672 | A kept value occurs as often in the result as in the input |
| Lists.FilterFilter | app.js:711-717 | Filtering by one test and then by another keeps exactly what filtering once by both tests keeps, in the same order |
| Config.LimitsAreOrdered | config.js:84-87 | The deposit and withdrawal ranges are non-empty, the minimum deposit is below the minimum withdrawal, and the password minimum (config.js:208) is below its maximum |
| Config.ValidUid | config.js:200 | The uid pattern: nine or ten decimal digits; a valid uid holds no whitespace, so the form's trim leaves it as it is |
| Config.ValidTeamCode | config.js:213 | The team-code pattern: six characters from A–Z and 0–9; a valid code holds no whitespace |
| Config.ValidCodeSurvivesNormalising | app.js:1318 | Trimming and upper-casing a typed code, as the join form does, leaves every valid code as it is |
| Config.TeamCodePatternHasCodeLength | config.js:211-214 | A code matching the team-code pattern has the configured code length of 6 |
| Config.ValidEmailImpliesPattern | config.js:204 | An address accepted by the direct check splits into three non-empty runs without whitespace or `@`, joined by `@` and `.` |
| Config.PatternImpliesValidEmail | config.js:204 | Every string the email pattern matches is accepted by the direct check |
| Config.ValidEmailMatchesPattern | config.js:203-206 | The direct email check accepts exactly what the email regular expression matches |
| Config.BattleRoyaleConsistent | config.js:99-132 | Every Battle Royale option seats players = teams × team size, and every team size is at most 6 |
| Config.ClashSquadConsistent | config.js:133-158 | The same for Clash Squad |
| Config.LoneWolfConsistent | config.js:159-172 | The same for Lone Wolf |
| Config.GameModesConsistent | config.js:98-175 | Every option of the game-mode table satisfies players = teams × team size, with team sizes at most the team maximum |
| Registration.CheckRegistration | app.js:200-228 | The form goes on exactly when the passwords agree, the password has at least 6 UTF-16 units, the trimmed uid is 9 or 10 digits and the trimmed email matches the pattern; differing passwords are reported first, then a short password, then the uid, then the email |
| Registration.NoMaximumPasswordLength | app.js:215-218 | A password longer than the configured maximum of 20 is still accepted |
| Registration.UidFieldIsTrimmed | app.js:204 | Surrounding whitespace in the uid field never changes the verdict |
| Tournaments.Displayed | app.js:707-718 | The list holds exactly the stored tournaments that pass the three option filters, the case-insensitive name search and the open-status rule |
| Tournaments.NoFilterListsOpen | app.js:711-717 | With every filter on "All" and an empty search, exactly the open tournaments are listed, in stored order |
| Tournaments.SearchIgnoresCase | app.js:709-714 | Upper-casing the search text does not change which tournaments are shown |
| Tournaments.ModeFilterNarrows | app.js:711-717 | The list shown under a mode filter is the list shown with that filter off, cut down to that mode, in the same order |
| TimeAgo.FormatTime | app.js:1387-1398 | Under a minute reads "just now", then whole minutes, hours, days by floor division, and a date from thirty days on; each bucket holds exactly its range |
| TimeAgo.GetTimeAgo | app.js:2165-2173 | The same buckets with no date cut-off: days are counted without limit |
| TimeAgo.FormatTimeAgreesWithGetTimeAgo | app.js:1392-1395 | The two labellers agree on everything younger than thirty days |
| TimeAgo.GetTimeAgoMonotone | app.js:2169-2172 | An older item never gets a label that reads as more recent |
| TimeAgo.Counted | app.js:2170-2172 | A label is the count's decimal digits followed by its unit suffix, and the digits read back as the count |
| TimeAgo.Label | app.js:1392-1398 | The label text: "Just now", the locale date past thirty days, or the count's digits followed by "m ago", "h ago" or "d ago", with the digits reading back as the count |
| TimeAgo.LabelDeterminesAge | app.js:2168-2172 | Two relative ages with the same label text are the same age: the text fixes the unit and the count |
| TeamCode.AlphabetAt | app.js:1298 | Every alphabet position holds a character the team-code pattern allows |
| TeamCode.AlphabetLayout | app.js:1298 | The alphabet has 36 characters: A–Z, then 0–9 |
| TeamCode.CodeOf | app.js:1300-1302 | The code spelled by a run of draws has one character per draw, the alphabet character at that draw |
| TeamCode.DrawsOfCodeOf | app.js:1297-1304 | The draws can be read back from the code, so different draws give different codes |
| TeamCode.CodeOfDrawsOf | config.js:211-214 | Every code the team-code pattern accepts is spelled by some six draws |
| TeamCode.CodeOfValidIffSix | app.js:1300 | A run of draws spells a valid code exactly when there are six draws |
| TeamCode.GenerateTeamCode | app.js:1297-1304 | The loop builds the code the six draws spell, and that code satisfies the team-code pattern |
| Data.Dataset.UserByUid | data.js:655-657 | The first user with the uid, or nothing exactly when no user has it |
| Data.Dataset.TeamById | data.js:660-662 | The first team with the id, or nothing exactly when no team has it |
| Data.Dataset.TournamentById | data.js:665-667 | The first tournament with the id, or nothing exactly when none has it |
| Data.Dataset.UserTransactions | data.js:670-672 | Exactly the ledger entries with the uid |
| Data.Dataset.UserNotifications | data.js:675-677 | Exactly the notifications with the uid |
| Data.Dataset.UserTournamentHistory | data.js:680-682 | Exactly the history entries with the uid |
| Data.UserTransactionsAfterAppend | data.js:670-672 | Appending a transaction to the ledger extends its owner's list at the end, and no other user's list changes |
| Data.UserTransactionsKeepDuplicates | data.js:670-672 | A user's list holds each of their transactions as often as the ledger does |
| Data.SampleMembershipLinked | data.js:305-354 | Every sample user with a team is listed by that team, and every listed member's user points back at the team |
| Data.SampleAdminsConsistent | data.js:305-354 | Each sample team has exactly one admin member: its admin uid, whose user carries the admin flag; no teamless user carries the flag |
| Data.SampleTeamsWellFormed | data.js:305-354 | Sample rosters have at most 6 members, and the team codes are valid and distinct |
| Wallet.SumAppend | app.js:898-913 | Recording a transaction moves the ledger total (`Sum`, the total that `Wallet.Valid` ties the balance to) by exactly its amount |
| Wallet.SumFront | app.js:898-913 | The ledger total is the same summed from the front as from the back |
| Wallet.LedgerAppend | app.js:898-913 | Appending a transaction of the user moves the session's total by its amount, and every transaction of the session stays the user's |
| Wallet.Wallet.JoinTournament | app.js:887-917 | A missing tournament or too small a balance changes nothing; a confirmed join lowers the balance by the entry fee, fills one more slot of the first tournament with that id, and appends one completed entry-fee transaction of minus the fee; the ledger invariant holds |
| Wallet.Wallet.AddMoney | app.js:996-1028 | A deposit is refused exactly when it is below the minimum of 100; otherwise the balance rises by the amount and one completed deposit of that amount is appended |
| Wallet.Wallet.Withdraw | app.js:1030-1066 | A withdrawal is accepted exactly when it is at least 500 and at most the balance; then the balance falls by the amount and one pending withdrawal of minus the amount is appended, so the balance never goes negative |
| Teams.Single | app.js:1333-1337 | A `.single()` query yields a row exactly when one row matches, and then it is that row |
| Teams.MembersOf | app.js:1704-1707 | Specification of the member query: the profiles whose team is the given one; the handler contracts of `DissolveTeam` are stated with it |
| Teams.ClearTeam | app.js:1710-1716 | Every profile of the team loses its team and admin flag, the others are unchanged, and afterwards no profile references the team |
| Teams.NewTeamKeepsProfilesOk | app.js:1257-1282 | Issuing a fresh team id with the creator as its admin keeps every profile consistent: ids issued, admin flags with a team they administer |
| Teams.PendingAtMostOne | app.js:1531-1542 | While no invitation is pending twice, the duplicate-invitation query sees at most one row |
| Teams.AcceptAll | app.js:2221-2225 | Specification of the status update: every invitation of the player to the team becomes accepted, every other invitation is unchanged; `AcceptAllKeepsUnique` states what it preserves |
| Teams.AcceptAllKeepsUnique | app.js:2221-2225 | Accepting invitations creates no duplicate pending one and makes nothing pending |
| Teams.NotifiedContents | app.js:1721-1733 | Notifying a run of members under fresh ids keeps every existing notification and gives each member exactly one new notice, under consecutive ids in run order |
| Teams.TeamStore.LookupUid | app.js:1455-1459 | A profile query by uid finds a profile exactly when one profile has that uid |
| Teams.TeamStore.CreateTeam | app.js:1226-1293 | An empty trimmed name or a user already in a team changes nothing; otherwise one new team with the user as admin, member count 1 and maximum 6 is inserted, and the user becomes its admin |
| Teams.TeamStore.JoinTeamByCode | app.js:1306-1385 | The trimmed, upper-cased code must be non-empty, the user teamless, the code must name exactly one team, that team must not be full, and its admin's profile must exist; then exactly one join-request notice for the user goes to the admin; no profile, team or invitation changes |
| Teams.TeamStore.SearchPlayer | app.js:1428-1514 | Reads only; rejects in order: empty uid, not an admin, no single profile with that uid, the user's own profile, a player in a team, a missing team, a full team; otherwise finds the player |
| Teams.TeamStore.InvitePlayer | app.js:1519-1589 | With the user's team present and no pending invitation for that player, adds exactly one pending invitation and one actionable invite notice to the player; otherwise changes nothing |
| Teams.TeamStore.AcceptTeamInvite | app.js:2185-2253 | A user in a team changes nothing; a full team only loses the notification; otherwise the user joins as a plain member, their invitations to the team become accepted, the notification is deleted and the admin gets one notice |
| Teams.TeamStore.DeclineNotice | app.js:2256-2274 | The notification is deleted and nothing else changes (declining a join request, app.js:2370-2388, does the same) |
| Teams.TeamStore.AcceptTeamRequest | app.js:2277-2368 | A non-admin changes nothing; a full team or a player already in a team only deletes the notification and leaves the player untouched; otherwise the player joins as a plain member, the notification is deleted and the player gets one notice |
| Teams.TeamStore.RemoveMember | app.js:1593-1647 | A confirmed removal by an admin clears exactly the one profile with that uid and notifies it; any other case changes nothing |
| Teams.TeamStore.LeaveTeam | app.js:1652-1686 | An admin is refused; a confirmed leave clears exactly the user's own profile |
| Teams.TeamStore.NotifyMembers | app.js:1721-1733 | Each member other than the admin gets exactly one notice under a fresh id, and existing notifications are kept |
| Teams.TeamStore.DissolveTeam | app.js:1688-1754 | After two confirmations: no profile references the team, every former member but the admin has exactly one new notice, and the team row is gone |
| Teams.TeamStore.ClearOrphanTeam | app.js:1068-1105 | A user whose team row no longer exists loses the team and admin flag; nothing else changes |

## Left out

- Rendering, navigation, modals, badges and the text of alerts, titles and messages are not modelled. They are presentation; alerts become outcome tags.
- Authentication, sessions, storage uploads and account deletion are not modelled. They are calls into the backend client library.
- Each handler is modelled as one atomic step that runs to completion. Cross-session races are not modelled. Neither is a backend failure between two writes of one handler, for example a team inserted but the profile update failing.
- The signed-in user's local `AppState.currentUser` copy is identified with their profile row. Its staleness is not modelled: another session's change, such as an accepted join request, reaches the profile row but not that copy.
- Teams.TeamStore.CreateTeam: the team code comes from the backend's `generate_team_code` procedure. That procedure is not part of this model, so the code is an input and its uniqueness is not modelled.
- Database triggers and constraints of the backend are not part of this model. In particular, `memberCount` is only ever written by team creation, which writes 1.
- Teams.TeamStore.InvitePlayer: a `.maybeSingle()` query that matches two or more pending rows fails, and the handler would then insert anyway. `TeamStore.Valid` shows no reachable state has two such rows, so the contract states the refusal as "a pending invitation exists".
- The `verifyPlayer` re-read in `acceptTeamRequest` only logs, so it is not modelled.
- Notification payload fields that only feed display text are not modelled: team name, team code, inviter and player names, and the read flag. Invitation row ids and timestamps are not modelled either.
- Wallet.Wallet.AddMoney: the balance and the amounts are exact integers. In JavaScript they are double-precision numbers, and no maximum deposit is checked, so the model's arithmetic, and with it `Wallet.Valid`'s ledger equation, matches the client only while balances and amounts stay below 2^53. The same holds for `Withdraw` and `JoinTournament`.
- Wallet.Wallet.AddMoney: amounts are integers. JavaScript's `parseInt` can yield `NaN`, which passes the minimum check in JavaScript. That case is not modelled. The same holds for `Withdraw`.
- Wallet.Wallet.JoinTournament: the transaction's id, date, time and description are not modelled, since they come from the clock or are display text. The same holds for the deposit reference, the UPI id and the screenshot of the other wallet handlers.
- The client's `joinTournament` checks neither free slots nor the open status, and the model keeps that. The configured maximum deposit and withdrawal are likewise never checked.
- Text.ToUpper and Text.ToLower map ASCII letters only. JavaScript maps the whole of Unicode; that difference shows only for team codes or searches with non-ASCII letters.
- Text.Utf16Length counts characters as Unicode scalar values. Lone surrogates are not modelled.
- The calendar date that `formatTime` shows past thirty days is an input (`TimeAgo.Label`). Date parsing, clocks, countdowns, win rates and the floating-point prize split are not modelled.
- The demo data set's tournament, transaction, notification and history tables are not transcribed. Only the users and teams are, as a consistency fixture. The mock-only `sendJoinRequest` and `markAsRead` are not modelled.
- The descriptive configuration (endpoints, labels, colours, feature flags, notification type names, expiry hours) is not modelled.
