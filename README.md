# Twincord: communities, auth, stats and the sign-up / log-in forms

Twincord is a small community-chat app: an Express/Mongoose backend and a React Native client.
This project models the part of it that decides things:

- the community router (`/api/communities`): creating a community with a fresh six-character join
  code, joining by code, listing, reading one community and its message log, and posting a
  message, over the Community collection as the schema in `backend/models/Community.js` shapes and
  validates it;
- the auth router (`/api/auth`): register, login and logout over the User collection, seen as a
  table keyed by e-mail;
- the stats router (`/api/stats`): three counts combined into one reply;
- the client's two forms: the two-step sign-up screen and the log-in screen, with their field
  rules, the `errors` object they keep, and the normalised data they send.

Layout (one module per file):

| file | module | models |
|---|---|---|
| `common.dfy` | `Common` | `Option`, and `Response` (a success with status and body, or a failure with status and message) |
| `js_string.dfy` | `JsString` | JavaScript truthiness of a string, `trim`, ASCII `toLowerCase`, the e-mail normal form |
| `email_pattern.dfy` | `EmailPattern` | the unanchored `\S+@\S+\.\S+` test, as a regular-expression definition and a decision procedure proved equal |
| `password_pattern.dfy` | `PasswordPattern` | the `^(?=.*[a-z])(?=.*[A-Z])(?=.*\d)` test, likewise |
| `code_generator.dfy` | `CodeGenerator` | `generateCode` |
| `community_model.dfy` | `CommunityModel` | the Community and message schemas and their save-time validation |
| `user_model.dfy` | `UserModel` | user rows, lookups by e-mail and id, the online count |
| `community_routes.dfy` | `CommunityRoutes` | the community handlers as pure steps, and the `Store` class that runs them on its `communities` field |
| `auth_routes.dfy` | `AuthRoutes` | the auth handlers as pure steps, and the `UserTable` class |
| `stats_routes.dfy` | `StatsRoutes` | the stats handler |
| `form_rules.dfy` | `FormRules` | the `errors` object, the e-mail rule both screens share, the server's `details` |
| `signup_screen.dfy` | `SignupScreen` | the sign-up rules and validators, and the `Signup` class holding the screen's state |
| `login_screen.dfy` | `LoginScreen` | the log-in rules and validator, and the `Login` class |

How the model is built:

- Each handler is a pure function from the collection (a `seq`, in insertion order) and the request
  to a `Step`: the reply and the collection after it. Properties are proved about these functions.
  The classes `Store` and `UserTable` hold the collection in a field. Their methods follow the
  handler's code line by line and are proved to give exactly that step's reply and new state, and
  to keep the class invariant.
- A missing or empty request field is `None` or `Some("")`; both fail the handlers' `!x` checks.
- `Math.random` is a parameter: a sequence of draws, each already scaled to an index into the
  31-character alphabet. Attempt `k` of the retry loop uses draws `6k` to `6k + 5`. The clock is a
  `now` argument, and the store's ghost `clock` keeps it from going back. `matchPassword` and
  `generateToken` are function parameters. The id a new document gets is an argument that no
  document already has.
- Mongoose's save-time validation is part of the model. The handlers test `!name` and `!text` on the
  raw value, but the schema trims before it checks `required` and `maxlength`. So a name or text
  of only white space gets past the handler's 400 check and then fails the save, which the
  handler's `catch` turns into 500 "Server error". The same happens to a name longer than 100
  characters once trimmed.
- The screens' `errors` object is a `map<string, Option<string>>`. Clearing a field's error writes
  `null` (`None`) under its key, as the code does.

## Model

| member | source | states |
|---|---|---|
| JsString.Trim | frontend/twincord/screens/SignupScreen.js:51 | `trim` gives the empty string exactly for all-white-space input, and otherwise a result that neither starts nor ends with white space |
| JsString.TrimIsSlice | frontend/twincord/screens/SignupScreen.js:108 | what `trim` keeps is one contiguous piece of the input, with only white space cut off on either side |
| JsString.TrimIdempotent | backend/models/Community.js:12 | trimming a trimmed value changes nothing (the schema's `trim` on an already trimmed name) |
| JsString.ToLower | frontend/twincord/screens/SignupScreen.js:109 | lower-casing keeps the length and every white-space position, turns each letter A–Z into its lower-case letter (code point plus 32), keeps every other character, and leaves no upper-case letter |
| JsString.ToLowerIdempotent | frontend/twincord/screens/LoginScreen.js:57 | lower-casing twice is lower-casing once |
| JsString.NormalizeEmail | frontend/twincord/screens/LoginScreen.js:57 | the normal form is empty exactly for a blank value and never starts or ends with white space |
| JsString.NormalizeEmailIdempotent | frontend/twincord/screens/SignupScreen.js:109 | normalising a normalised address changes nothing |
| EmailPattern.LooksLikeEmailIffTest | frontend/twincord/screens/SignupScreen.js:59 | the decision procedure accepts exactly the strings with some substring matching `\S+@\S+\.\S+` in full (the pattern is unanchored) |
| EmailPattern.SplitGivesMatch | frontend/twincord/screens/LoginScreen.js:33 | an '@' and a later '.' with non-space characters around them and between them delimit a full match |
| EmailPattern.MatchGivesSplit | frontend/twincord/screens/LoginScreen.js:33 | every full match contains such an '@' and '.' |
| EmailPattern.BlankNeverMatches | frontend/twincord/screens/SignupScreen.js:57-61 | a blank value never passes the pattern, so "Email is required" never hides a value the pattern would accept |
| EmailPattern.NormalizeKeepsMatch | frontend/twincord/screens/SignupScreen.js:59-109 | an address that passes the test still passes it after `trim().toLowerCase()` |
| EmailPattern.TrimKeepsMatch | frontend/twincord/screens/LoginScreen.js:57 | trimming keeps a match |
| EmailPattern.LowerKeepsMatch | frontend/twincord/screens/LoginScreen.js:57 | lower-casing keeps a match |
| PasswordPattern.FirstLine | frontend/twincord/screens/SignupScreen.js:74 | the text a `.*` at position 0 can cover: the prefix before the first line terminator |
| PasswordPattern.LookaheadIffFirstLine | frontend/twincord/screens/SignupScreen.js:74 | one look-ahead `(?=.*[class])` succeeds exactly when its class occurs before the first line terminator |
| PasswordPattern.StrongEnoughIffTest | frontend/twincord/screens/SignupScreen.js:74 | the decision procedure accepts exactly the passwords the three anchored look-aheads accept |
| PasswordPattern.LineBreakHidesClass | frontend/twincord/screens/SignupScreen.js:74 | a concrete instance of the line-break rule: `"aB\n1"` holds a lower-case letter, an upper-case letter and a digit, yet is refused because the digit only occurs after the line break (the rule for every string is `LookaheadIffFirstLine`) |
| CodeGenerator.CodeOf | backend/routers/communityRoutes.js:8-13 | the code the draws spell has one character per draw, each from the alphabet |
| CodeGenerator.GenerateCode | backend/routers/communityRoutes.js:8-13 | the loop appends one alphabet character per draw and returns the code the first `length` draws spell |
| CodeGenerator.AlphabetUnambiguous | backend/routers/communityRoutes.js:9 | the alphabet has 31 characters and none of 0, O, 1, I, L or a lower-case letter |
| CodeGenerator.CodeUnambiguous | backend/routers/communityRoutes.js:9-11 | no generated code contains an ambiguous character |
| CodeGenerator.DrawOf | backend/routers/communityRoutes.js:9 | the draw that produces a given alphabet character |
| CodeGenerator.DrawsOfCodeOf | backend/routers/communityRoutes.js:11 | a code determines the draws it was generated from, so distinct draws give distinct codes |
| CodeGenerator.DrawOfAlphabet | backend/routers/communityRoutes.js:9 | the alphabet's characters are pairwise distinct |
| CommunityModel.NewMessage | backend/models/Community.js:4-9 | a message saves exactly when there is a sender and the trimmed text is not empty, and is stored with the trimmed text and the given time |
| CommunityModel.NewCommunity | backend/models/Community.js:11-19 | a community saves exactly when the trimmed name is not empty and at most 100 characters and a code and a creator are given; it is stored with the trimmed name, the given description trimmed (the empty string when none is given) and no messages |
| UserModel.FindByEmail | backend/routers/authRoutes.js:18 | finds a user with that e-mail, or reports that none has it |
| UserModel.HasUser | backend/routers/communityRoutes.js:24 | `User.findById` finds a user: some stored user has that id; once a name and a creator are given, `CommunityRoutes.CreateStep` answers 404 exactly when it does not (a missing name or creator is answered 400 first) |
| UserModel.OnlineCount | backend/routers/statsRoutes.js:13 | the number of users whose online flag is set; its bounds and how it moves are stated by `OnlineCountBounded`, `OnlineCountAppend` and `OnlineCountUpdate` |
| UserModel.OnlineCountBounded | backend/routers/statsRoutes.js:13 | the online count is at most the number of users, and equal to it exactly when all users are online |
| UserModel.OnlineCountAppend | backend/routers/statsRoutes.js:12-13 | appending a user adds one to the online count exactly when that user is online |
| UserModel.OnlineCountUpdate | backend/routers/authRoutes.js:77-80 | replacing one user changes the online count by the change in that user's flag only |
| CommunityRoutes.FindById | backend/routers/communityRoutes.js:131 | finds the community with that id, or reports that none has it |
| CommunityRoutes.FindByCode | backend/routers/communityRoutes.js:62 | finds a community with that code, or reports that the code is free |
| CommunityRoutes.LookupsOnlySeeKeys | backend/routers/communityRoutes.js:62-131 | a collection that changes members or messages but no id or code answers every lookup as before |
| CommunityRoutes.CommunityInvariant | backend/models/Community.js:11-19 | what every stored community satisfies: the schema's constraints, a six-character code from the alphabet, the creator among the members, no member twice, every sender a member, and a log in time order; the `*PreservesInvariant` lemmas prove every handler keeps it |
| CommunityRoutes.StoreInvariant | backend/models/Community.js:14 | every community satisfies `CommunityInvariant`, and no two share an id or a join code (`unique: true` on `code`) |
| CommunityRoutes.UpdatePreservesStore | backend/models/Community.js:14 | replacing one community with a valid one with the same id and code keeps the collection's invariant, including unique codes |
| CommunityRoutes.AppendPreservesStore | backend/models/Community.js:14 | appending a valid community with a fresh id and an unused code keeps the invariant |
| CommunityRoutes.AddMemberKeepsInvariant | backend/routers/communityRoutes.js:65-70 | adding a user who is not yet a member keeps the member list free of duplicates |
| CommunityRoutes.AppendMessageKeepsInvariant | backend/routers/communityRoutes.js:135-141 | appending a valid message from a member, stamped at the current clock (so no earlier than any message already in the log), keeps the community's invariant |
| CommunityRoutes.InvariantLaterClock | backend/models/Community.js:8-18 | the invariant is kept when the clock moves forward |
| CommunityRoutes.FirstFreeAttempt | backend/routers/communityRoutes.js:28-36 | the first attempt from `k` on whose code no community holds, and `None` exactly when all the remaining attempts are taken |
| CommunityRoutes.FirstFreeAttemptIs | backend/routers/communityRoutes.js:30-33 | an attempt whose code is free, after a run of taken ones, is the first free attempt |
| CommunityRoutes.PickCode | backend/routers/communityRoutes.js:28-36 | the retry loop gives up exactly when all eleven attempts (the first try and 10 retries) hit taken codes, and otherwise returns the first free attempt's code |
| CommunityRoutes.CreateStep | backend/routers/communityRoutes.js:18-52 | the checks run in order: 400 missing name or creator, 404 unknown creator, 500 when all eleven codes collide, 500 when the schema refuses the name. A failure changes nothing. A request that passes every check succeeds, and a success appends one community with the first free attempt's code (six characters, held by no other community), the trimmed name and description, the creator as its only member and an empty log |
| CommunityRoutes.CreatePreservesInvariant | backend/routers/communityRoutes.js:38-46 | creating keeps the collection's invariant: codes stay unique, the creator is a member, and timestamps do not go back |
| CommunityRoutes.Store.Create | backend/routers/communityRoutes.js:18-52 | the handler's code gives exactly `CreateStep`'s reply and new collection, and keeps the invariant |
| CommunityRoutes.JoinStep | backend/routers/communityRoutes.js:57-76 | 400 on missing input, 404 exactly when no community holds the code, and success whenever one does. An existing member gets "Already a member" and nothing changes. Anyone else is appended once to that community only, and the reply carries no note |
| CommunityRoutes.JoinIdempotent | backend/routers/communityRoutes.js:65-67 | joining twice is joining once: the second join reports "Already a member", and the collection and the member count stay the same |
| CommunityRoutes.JoinPreservesInvariant | backend/routers/communityRoutes.js:65-70 | joining keeps the invariant; member lists stay free of duplicates |
| CommunityRoutes.Store.Join | backend/routers/communityRoutes.js:57-76 | the handler's code gives exactly `JoinStep`'s reply and new collection, and keeps the invariant |
| CommunityRoutes.CommunityById | backend/routers/communityRoutes.js:99-108 | 404 exactly when no community has the id; otherwise that community, from the collection |
| CommunityRoutes.Store.Get | backend/routers/communityRoutes.js:99-108 | replies with what `CommunityById` gives on the current collection and changes nothing; the meaning of that reply is stated by `CommunityById` |
| CommunityRoutes.MessagesOf | backend/routers/communityRoutes.js:112-121 | 404 exactly when no community has the id; otherwise that community's whole log in stored order |
| CommunityRoutes.Store.GetMessages | backend/routers/communityRoutes.js:112-121 | replies with what `MessagesOf` gives on the current collection and changes nothing; the meaning of that reply is stated by `MessagesOf` |
| CommunityRoutes.PostStep | backend/routers/communityRoutes.js:126-148 | 400 on missing sender or text, 404 for an unknown community, 403 for a non-member, 500 for a blank text. A failure changes nothing. A success appends exactly one message to that community, keeps every other community, and replies with the appended last message |
| CommunityRoutes.DisplayName | backend/routers/communityRoutes.js:139 | the handler's fallback for a missing sender name: the given name when it is a non-empty string, and the empty string otherwise |
| CommunityRoutes.PostPreservesInvariant | backend/routers/communityRoutes.js:139-141 | posting keeps the invariant: senders are members, and message times never decrease |
| CommunityRoutes.Store.PostMessage | backend/routers/communityRoutes.js:126-148 | the handler's code gives exactly `PostStep`'s reply and new collection, and keeps the invariant |
| CommunityRoutes.PostOneAppends | backend/routers/communityRoutes.js:139-143 | one post by a member of a non-blank text appends exactly that message and moves no id or code |
| CommunityRoutes.PostAllAppends | backend/routers/communityRoutes.js:139-141 | N non-blank posts by a member add exactly N messages, in posting order, after the existing ones |
| CommunityRoutes.InsertByDate | backend/routers/communityRoutes.js:86-88 | inserting one community lengthens the list by one; what it inserts and where is stated by `InsertByDatePermutes` and `InsertByDateSorted` |
| CommunityRoutes.InsertByDatePermutes | backend/routers/communityRoutes.js:86-88 | inserting into the sorted list adds exactly that community and loses none |
| CommunityRoutes.InsertByDateSorted | backend/routers/communityRoutes.js:86-88 | inserting into a newest-first list keeps it newest first |
| CommunityRoutes.SortNewestFirst | backend/routers/communityRoutes.js:86-88 | `sort({ createdAt: -1 })` gives the same communities, newest first |
| CommunityRoutes.MemberOf | backend/routers/communityRoutes.js:86 | `find({ members: u })` keeps exactly the communities with `u` as a member, with their multiplicity |
| CommunityRoutes.Listed | backend/routers/communityRoutes.js:80-95 | given a `userId`, exactly that user's communities, and otherwise all of them; newest first either way |
| CommunityRoutes.Summarize | backend/routers/communityRoutes.js:86-88 | `select('-messages')`: every field of the community except its message log |
| CommunityRoutes.Store.List | backend/routers/communityRoutes.js:80-95 | returns, in order, the summaries of what `Listed` gives on the current collection; which communities and in which order is stated by `Listed` |
| CommunityRoutes.Store.constructor | backend/models/Community.js:11-21 | an empty collection satisfies the invariant |
| AuthRoutes.UserTable.constructor | backend/routers/authRoutes.js:13-28 | an empty User collection satisfies the table invariant (ids and e-mails unique) |
| AuthRoutes.RegisterStep | backend/routers/authRoutes.js:13-52 | 400 with nothing added exactly when the e-mail is taken. Otherwise one offline user is appended, and 201 carries "User registered successfully", that user's profile and a token for the new id |
| AuthRoutes.RegisterPreservesInvariant | backend/routers/authRoutes.js:18-28 | registering keeps e-mails and ids unique |
| AuthRoutes.RegisterTwiceRefused | backend/routers/authRoutes.js:18-24 | once an e-mail is registered, registering it again gets 400 "User already exists with this email" |
| AuthRoutes.LoginStep | backend/routers/authRoutes.js:55-104 | an unknown e-mail and a wrong password get the same 400 and change nothing. A success sets that user, and no other, online with `lastSeen = now` |
| AuthRoutes.LoginPreservesInvariant | backend/routers/authRoutes.js:77-80 | login keeps e-mails and ids unique |
| AuthRoutes.LoginOnlineCount | backend/routers/authRoutes.js:77-80 | after a successful login the user is online. The online count rises by one exactly when the user was offline before. A failed login leaves the count as it was |
| AuthRoutes.UserTable.Register | backend/routers/authRoutes.js:13-52 | the handler's code gives exactly `RegisterStep`'s reply and new table |
| AuthRoutes.UserTable.Login | backend/routers/authRoutes.js:55-104 | the handler's code gives exactly `LoginStep`'s reply and new table |
| AuthRoutes.UserTable.Logout | backend/routers/authRoutes.js:107-122 | always 200 "Logged out successfully", and the table is unchanged |
| StatsRoutes.Aggregate | backend/routers/statsRoutes.js:9-33 | success exactly when all three counts succeed, carrying them and `meetingsToday = 0`; otherwise 500 "Failed to load stats" with no data |
| StatsRoutes.Snapshot | backend/routers/statsRoutes.js:11-27 | the reply when the three counts run against the collections as they stand; `SnapshotCounts` states what it carries |
| StatsRoutes.SnapshotCounts | backend/routers/statsRoutes.js:11-27 | counted against the collections, the reply succeeds with the user, online and community counts, and never reports more users online than there are users |
| FormRules.ClearIfShown | frontend/twincord/screens/LoginScreen.js:156-160 | afterwards the field shows no error, and every other key is untouched; nothing changes when no error was shown |
| FormRules.EmailError | frontend/twincord/screens/LoginScreen.js:31-35 | at most one message, "Email is required" or "Please enter a valid email"; `EmailErrorIffTest` states when each appears |
| FormRules.EmailErrorIffTest | frontend/twincord/screens/LoginScreen.js:31-35 | the e-mail rule accepts exactly the values the pattern's `test` accepts, and asks for the address exactly when the value is blank |
| FormRules.ErrorsFromDetails | frontend/twincord/screens/LoginScreen.js:72-78 | the errors built from the server's `details` have one key per field named, and no other keys |
| FormRules.DetailsLastWins | frontend/twincord/screens/LoginScreen.js:75-77 | each key holds the message of the last detail naming that field |
| SignupScreen.Set | frontend/twincord/screens/SignupScreen.js:37-40 | the named field reads back the new value, and every other field reads back what it held |
| SignupScreen.KeysDistinct | frontend/twincord/screens/SignupScreen.js:36-46 | the four fields have distinct `errors` keys, none of them `terms` |
| SignupScreen.FullNameError | frontend/twincord/screens/SignupScreen.js:51-55 | the name rule on the trimmed value: "Full name is required", then "Name must be at least 2 characters"; characterised by `FullNameErrorIff` |
| SignupScreen.PasswordError | frontend/twincord/screens/SignupScreen.js:70-76 | the password rule on the raw value: required, then at least six characters, then the look-ahead test; characterised by `PasswordErrorIff` |
| SignupScreen.ConfirmError | frontend/twincord/screens/SignupScreen.js:78-82 | the confirmation rule: required, then equal to the password; characterised by `ConfirmErrorIff` |
| SignupScreen.Step1Errors | frontend/twincord/screens/SignupScreen.js:48-62 | `validateStep1`'s `newErrors`; characterised by `Step1ErrorsPerField` and `Step1AcceptsIff` |
| SignupScreen.Step2Errors | frontend/twincord/screens/SignupScreen.js:67-87 | `validateStep2`'s `newErrors`; characterised by `Step2ErrorsPerField` and `Step2AcceptsIff` |
| SignupScreen.FullNameErrorIff | frontend/twincord/screens/SignupScreen.js:51-55 | the name rule accepts exactly names of two or more characters once trimmed, and says "required" exactly for a blank name |
| SignupScreen.PasswordErrorIff | frontend/twincord/screens/SignupScreen.js:70-76 | the password rule accepts exactly passwords of six or more characters that pass the look-ahead test |
| SignupScreen.BlankPasswordNotMissing | frontend/twincord/screens/SignupScreen.js:70-76 | six spaces are not "required" (that check does not trim) and fail as too weak |
| SignupScreen.ConfirmErrorIff | frontend/twincord/screens/SignupScreen.js:78-82 | the confirmation is accepted exactly when it equals a non-empty password, and is "required" exactly when empty |
| SignupScreen.Step1ErrorsPerField | frontend/twincord/screens/SignupScreen.js:48-62 | step 1 records the name's and the e-mail's messages, one per failing field, and nothing else |
| SignupScreen.Step1AcceptsIff | frontend/twincord/screens/SignupScreen.js:48-65 | step 1 accepts exactly a name of two or more trimmed characters with an e-mail passing the pattern |
| SignupScreen.Step2ErrorsPerField | frontend/twincord/screens/SignupScreen.js:67-87 | step 2 records password, confirmation and terms messages, one per failing rule and each the message its rule gives, and nothing else |
| SignupScreen.Step2AcceptsIff | frontend/twincord/screens/SignupScreen.js:67-90 | step 2 accepts exactly a password of six or more characters passing the look-aheads, repeated exactly, with the terms agreed |
| SignupScreen.Submitted | frontend/twincord/screens/SignupScreen.js:107-111 | the request carries the trimmed name, the normal form of the e-mail and the password as typed; what those guarantee is stated by `JsString.Trim`, `JsString.NormalizeEmail` and `SignupScreen.AcceptedFormSubmission` |
| SignupScreen.AcceptedFormSubmission | frontend/twincord/screens/SignupScreen.js:98-111 | a form both steps accept is sent as a trimmed name of two or more characters, an address that still passes the pattern and is its own normal form, and a password passing the step 2 rule |
| SignupScreen.Signup.constructor | frontend/twincord/screens/SignupScreen.js:23-34 | an empty form on step 1, terms not agreed, not loading, no errors |
| SignupScreen.Signup.HandleInputChange | frontend/twincord/screens/SignupScreen.js:36-46 | updates only the named field and clears only that field's error, if one was shown |
| SignupScreen.Signup.ToggleTerms | frontend/twincord/screens/SignupScreen.js:258 | flips the agreement and nothing else |
| SignupScreen.Signup.HandleBack | frontend/twincord/screens/SignupScreen.js:272 | returns to step 1 and changes nothing else |
| SignupScreen.Signup.ValidateStep1 | frontend/twincord/screens/SignupScreen.js:48-65 | replaces the errors with step 1's and returns whether there are none |
| SignupScreen.Signup.ValidateStep2 | frontend/twincord/screens/SignupScreen.js:67-90 | replaces the errors with step 2's and returns whether there are none |
| SignupScreen.Signup.HandleNext | frontend/twincord/screens/SignupScreen.js:92-96 | moves to step 2 exactly when step 1 validates; so on step 2 the name and e-mail are always ones step 1 accepted |
| SignupScreen.Signup.HandleSignup | frontend/twincord/screens/SignupScreen.js:98-111 | sends nothing unless step 2 validates. When it does, loading starts, the errors are cleared, and the normalised registration of a form step 1 also accepted is sent |
| SignupScreen.Signup.SignupSettled | frontend/twincord/screens/SignupScreen.js:121-140 | loading stops. A failure with `details` shows them per field; otherwise the errors stay |
| LoginScreen.PasswordErrorIff | frontend/twincord/screens/LoginScreen.js:37-41 | the password rule accepts exactly a value of six or more characters, counted as typed, that is not all white space |
| LoginScreen.PasswordError | frontend/twincord/screens/LoginScreen.js:37-41 | the log-in password rule: blank once trimmed is required, then at least six characters as typed; characterised by `PasswordErrorIff` |
| LoginScreen.FormErrors | frontend/twincord/screens/LoginScreen.js:28-42 | `validateForm`'s `newErrors`; characterised by `FormErrorsPerField` and `FormAcceptsIff` |
| LoginScreen.PaddedPasswordAccepted | frontend/twincord/screens/LoginScreen.js:37-41 | five spaces and a letter pass although the trimmed value has one character |
| LoginScreen.FormErrorsPerField | frontend/twincord/screens/LoginScreen.js:28-42 | the validator records the e-mail's and the password's messages, one per failing field, and nothing else |
| LoginScreen.FormAcceptsIff | frontend/twincord/screens/LoginScreen.js:28-45 | the form is accepted exactly when the e-mail passes the pattern and the password has six or more characters and is not all white space |
| LoginScreen.Sent | frontend/twincord/screens/LoginScreen.js:56-59 | the credentials are the normal form of the e-mail and the password as typed; what they guarantee is stated by `JsString.NormalizeEmail` and `LoginScreen.AcceptedFormSent` |
| LoginScreen.AcceptedFormSent | frontend/twincord/screens/LoginScreen.js:47-59 | accepted input is sent as an address that still passes the pattern and is its own normal form, with a password of six or more characters |
| LoginScreen.Login.constructor | frontend/twincord/screens/LoginScreen.js:22-26 | empty fields, not loading, no errors |
| LoginScreen.Login.EditEmail | frontend/twincord/screens/LoginScreen.js:156-160 | sets the e-mail and clears only the e-mail error |
| LoginScreen.Login.EditPassword | frontend/twincord/screens/LoginScreen.js:180-184 | sets the password and clears only the password error |
| LoginScreen.Login.ValidateForm | frontend/twincord/screens/LoginScreen.js:28-45 | replaces the errors with the form's and returns whether there are none |
| LoginScreen.Login.HandleLogin | frontend/twincord/screens/LoginScreen.js:47-59 | makes no call unless the form validates. When it does, loading starts, the errors are cleared, and the normalised credentials are sent |
| LoginScreen.Login.LoginSettled | frontend/twincord/screens/LoginScreen.js:69-88 | loading stops. A failure with `details` shows them per field; otherwise the errors stay |

## Left out

- The realtime stats stream and the client's polling timers: they are timing and transport, not decisions over the data.
- Rendering, styles, animations, the show-password toggles, alerts, navigation, the connection test of the log-in screen, and the screens' `console` output.
- The network between client and server, and the `AuthContext` that carries the screens' requests. The screens' handlers end at the request they send, and resume at the outcome they receive.
- Concurrency: two requests interleaving between a handler's `findOne` and its `save` (two creates racing for one code, two joins racing) are not modelled; each handler runs alone.
- Mongoose's ObjectId casting: the model keeps every id as a plain string and compares strings, so it assumes that every id a request carries is a canonical ObjectId string (24 lower-case hexadecimal digits). For other ids the source behaves differently:
  - a malformed id makes `findById` throw, and the handler answers 500 "Server error", where the model's lookup finds nothing;
  - on join, a malformed `userId` makes `members.push` and `save()` fail (backend/routers/communityRoutes.js:69-70), so the source answers 500 and saves nothing, where the model answers 200 and appends the string;
  - on join, an upper-case spelling of an existing member's id fails the `m.toString() === userId` test (line 65) but is cast by `push` to the same ObjectId, so the source stores that member twice. The model's proof that member lists stay duplicate-free (`JoinPreservesInvariant`) holds for canonical ids only. This behaviour of the source is read from the code and was not executed;
  - on list, `find({ members: userId })` (line 86) casts too: a malformed id gives 500, and an upper-case spelling still matches, where `MemberOf` compares strings;
  - on create, the stored `creator` and member are the canonical form of `creatorId` (lines 42-43), where the model stores the string as given.
- Database failures in general: the generic `catch` paths (500 "Server error", "Internal server error during registration/login/logout") are only modelled where the schema's own validation causes them.
- The request-validation middleware of the auth routes (`validateRegister`, `validateLogin`, `handleValidationErrors`) and `backend/models/User.js`: they are not part of this model. Register assumes a new user starts offline with no `lastSeen`, and the profile is the user without the password.
- `populate` projections (creator and member names and e-mails) in the community replies: the model returns ids.
- String lengths count characters, not UTF-16 code units, and `toLowerCase` is modelled on ASCII letters only.
- JsString.ToLower: covers the ASCII letters only, because the Unicode case tables are not modelled.
- CommunityRoutes.Store.Create: takes the new document's id and the clock as arguments rather than generating them.
- CommunityRoutes.Store.List: returns summaries without the populated creator name and e-mail.
- SignupScreen.Signup.HandleSignup: the step 1 and step 2 properties of what is sent are stated by `SignupScreen.AcceptedFormSubmission`, not repeated in the method's contract.
