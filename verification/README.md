# Friend relationships and credential checks, modelled in Dafny

This project models two parts of the backend.

**The friend-relationship engine of the user service.** Two users stand in one of four relations:
- strangers;
- a pending request from one to the other;
- a pending request the other way;
- friends.

The database is modelled as three parts:
- the set of known usernames;
- the set of pending requests, each an ordered sender → receiver pair;
- the friendship table as a sequence of rows, with two user columns per row.

The three repository queries on that table treat a row as an unordered pair:
- `existsByUsers`, a `COUNT > 0`;
- `deleteByUsers`;
- `findAllByUser`.

Each of the eight service operations is a pure function. It returns the new database (or, for the three queries, the answer), or a `Rejection`: the unknown user, or the refusal kind together with the two usernames in the order its message prints them. On top of the operations, the model adds:
- `FriendsResponses` renders the status and message text of each answer.
- `FriendsStateMachine` compares every operation with an independent transition table over the derived relation, and proves that the database invariant is kept.
- `FriendsScenarios` restates each controller integration test as a lemma.

**Registration and login of the security service.** This is a validator over an account store:
- `register` rejects blank credentials, then a taken email, then a taken username. Otherwise it stores the account with role `USER` and the encoded password, and signs a token for it.
- `login` rejects blank credentials, then an unknown email, then credentials the authentication manager turns down. Otherwise it signs a token for the stored account.

A Java `null` is modelled as `None`. The password encoder, the token signer and the authentication manager are function parameters.

Files:
- `wrappers.dfy`: `Option` and `Result`.
- `friendships_repository.dfy`: the rows and the three queries.
- `friends_service.dfy`: the database, the relation and the eight operations.
- `friends_state_machine.dfy`: the transition table, locality and the invariant.
- `friends_properties.dfy`: properties of call sequences.
- `friends_responses.dfy`: statuses and messages.
- `friends_scenarios.dfy`: the integration tests.
- `authentication_service.dfy`: register and login.
- `authentication_scenarios.dfy`: the unit tests of the authentication service.

## Model

| member | source | states |
|---|---|---|
| FriendshipsRepository.Filter | project/user-service/src/main/java/com/stevenst/app/repository/FriendshipsRepository.java:25-32 | a row is in the result exactly when it is in the table and satisfies the WHERE condition; the result is never longer than the table |
| FriendshipsRepository.FilterKeepsCounts | project/user-service/src/main/java/com/stevenst/app/repository/FriendshipsRepository.java:25-32 | every row the condition keeps appears in the result as many times as in the table |
| FriendshipsRepository.CountByUsers | project/user-service/src/main/java/com/stevenst/app/repository/FriendshipsRepository.java:18-21 | the count is positive exactly when the table holds (a, b) or (b, a), and it is at most the table size |
| FriendshipsRepository.ExistsByUsers | project/user-service/src/main/java/com/stevenst/app/repository/FriendshipsRepository.java:18-21 | true exactly when some row is (a, b) or (b, a) |
| FriendshipsRepository.ExistsByUsersSymmetric | project/user-service/src/main/java/com/stevenst/app/repository/FriendshipsRepository.java:18-21 | existsByUsers(a, b) equals existsByUsers(b, a) |
| FriendshipsRepository.DeleteByUsers | project/user-service/src/main/java/com/stevenst/app/repository/FriendshipsRepository.java:23-28 | the rows left are exactly the rows not relating {a, b}, each kept as often as before; as many rows go as the existence query counts |
| FriendshipsRepository.DeleteCount | project/user-service/src/main/java/com/stevenst/app/repository/FriendshipsRepository.java:18-28 | deleting removes exactly the rows the existence query counts |
| FriendshipsRepository.DeleteRemovesPair | project/user-service/src/main/java/com/stevenst/app/repository/FriendshipsRepository.java:23-28 | after deleteByUsers(a, b), existsByUsers is false in both argument orders |
| FriendshipsRepository.DeleteAbsentPair | project/user-service/src/main/java/com/stevenst/app/repository/FriendshipsRepository.java:23-28 | deleting a pair with no row leaves the table unchanged |
| FriendshipsRepository.DeleteIdempotent | project/user-service/src/main/java/com/stevenst/app/repository/FriendshipsRepository.java:23-28 | deleting the same pair twice gives the same table as deleting it once |
| FriendshipsRepository.FilterAppend | project/user-service/src/main/java/com/stevenst/app/repository/FriendshipsRepository.java:23-32 | filtering two tables joined together gives the two filtered tables joined together |
| FriendshipsRepository.FilterExt | project/user-service/src/main/java/com/stevenst/app/repository/FriendshipsRepository.java:23-32 | the row filter behind deleteByUsers and findAllByUser depends only on which rows its condition keeps, not on how the condition is written |
| FriendshipsRepository.DeleteByUsersSymmetric | project/user-service/src/main/java/com/stevenst/app/repository/FriendshipsRepository.java:23-28 | deleteByUsers(a, b) and deleteByUsers(b, a) leave the same table |
| FriendshipsRepository.DeleteAppend | project/user-service/src/main/java/com/stevenst/app/repository/FriendshipsRepository.java:23-28 | deleting a pair from a split table deletes it from each part |
| FriendshipsRepository.FilterUnique | project/user-service/src/main/java/com/stevenst/app/repository/FriendshipsRepository.java:23-32 | a filtered table with one row per pair still has at most one row per pair |
| FriendshipsRepository.AppendUnique | project/user-service/src/main/java/com/stevenst/app/repository/FriendshipsRepository.java:18-21 | adding a row for a pair the existence query reports absent keeps one row per pair |
| FriendshipsRepository.FindAllByUser | project/user-service/src/main/java/com/stevenst/app/repository/FriendshipsRepository.java:30-32 | exactly the rows with the user in either column, each as often as it is stored |
| FriendsService.SendFriendRequest | project/user-service/src/main/java/com/stevenst/app/service/FriendsService.java:10 | succeeds exactly when both users are known and distinct and nothing relates them; afterwards the sender has a request pending to the receiver |
| FriendsService.CheckFriendRequest | project/user-service/src/main/java/com/stevenst/app/service/FriendsService.java:12 | answers for known users only; in a valid database the answer is true exactly when the request runs from sender to receiver |
| FriendsService.CheckFriendship | project/user-service/src/main/java/com/stevenst/app/service/FriendsService.java:14 | answers for known users only; true exactly when the two are friends, whichever order they are named in |
| FriendsService.Partners | project/user-service/src/main/java/com/stevenst/app/service/FriendsService.java:16 | one name per row; a name is listed exactly when a row pairs it with the user in either column |
| FriendsService.GetAllFriends | project/user-service/src/main/java/com/stevenst/app/service/FriendsService.java:16 | answers for a known user only; a name is listed exactly when that user is a friend |
| FriendsService.AcceptFriendRequest | project/user-service/src/main/java/com/stevenst/app/service/FriendsService.java:18 | succeeds exactly when both users are known and the request runs from sender to receiver; afterwards the two are friends and the request is gone |
| FriendsService.CancelFriendRequest | project/user-service/src/main/java/com/stevenst/app/service/FriendsService.java:20 | succeeds exactly when both users are known and the request runs from sender to receiver; in a valid database the pair is then unrelated |
| FriendsService.DeclineFriendRequest | project/user-service/src/main/java/com/stevenst/app/service/FriendsService.java:22 | succeeds exactly when both users are known and the request runs from sender to receiver; in a valid database the pair is then unrelated |
| FriendsService.Unfriend | project/user-service/src/main/java/com/stevenst/app/service/FriendsService.java:24 | succeeds exactly when both users are known and are friends; in a valid database they are then unrelated |
| FriendsStateMachine.RelationConverse | project/user-service/src/main/java/com/stevenst/app/service/FriendsService.java:10-24 | in a valid database, the relation read from the other side is the converse: sent becomes received, friends stay friends |
| FriendsStateMachine.UnknownUserRejectedFirst | project/user-service/src/test/java/com/stevenst/app/controller/FriendsControllerIntegrationTest.java:280-334 | an unknown user in either position is answered with the 404 rejection naming that user, before any relation guard; a rejection between known users is always a refusal; with two unknown users the first is named. The tests fix neither order, since none calls with two unknown users or has an unknown user send to themself: resolving identities first, in argument order, is this model's choice |
| FriendsStateMachine.ApplyFollowsTable | project/user-service/src/test/java/com/stevenst/app/controller/FriendsControllerIntegrationTest.java:336-513 | between known users of a valid database, every operation succeeds, refuses, and moves the pair exactly as the transition table says, and leaves the known users unchanged |
| FriendsStateMachine.ApplyIsLocal | project/user-service/src/main/java/com/stevenst/app/service/FriendsService.java:10-24 | an operation on one pair leaves the relation of every other pair unchanged |
| FriendsStateMachine.OnlyUnfriendRemovesFriendships | project/user-service/src/main/java/com/stevenst/app/service/FriendsService.java:24 | no successful operation other than unfriend removes a friendship |
| FriendsStateMachine.SendPreservesValid | project/user-service/src/main/java/com/stevenst/app/service/FriendsService.java:10 | a successful send keeps the database invariant |
| FriendsStateMachine.AcceptPreservesValid | project/user-service/src/main/java/com/stevenst/app/service/FriendsService.java:18 | a successful accept keeps the invariant, including one row per pair |
| FriendsStateMachine.CancelPreservesValid | project/user-service/src/main/java/com/stevenst/app/service/FriendsService.java:20 | a successful cancel keeps the invariant |
| FriendsStateMachine.DeclinePreservesValid | project/user-service/src/main/java/com/stevenst/app/service/FriendsService.java:22 | a successful decline keeps the invariant |
| FriendsStateMachine.UnfriendPreservesValid | project/user-service/src/main/java/com/stevenst/app/service/FriendsService.java:24 | a successful unfriend keeps the invariant |
| FriendsStateMachine.ApplyPreservesValid | project/user-service/src/main/java/com/stevenst/app/service/FriendsService.java:10-24 | every successful operation keeps the invariant, so every reachable database satisfies it |
| FriendsProperties.SendThenCheck | project/user-service/src/test/java/com/stevenst/app/controller/FriendsControllerIntegrationTest.java:91-137 | after a send, the request is found in its own direction only, and the pair are not yet friends |
| FriendsProperties.SendTwice | project/user-service/src/test/java/com/stevenst/app/controller/FriendsControllerIntegrationTest.java:385-400 | sending the same request again is refused as sent twice |
| FriendsProperties.SendThenReverse | project/user-service/src/test/java/com/stevenst/app/controller/FriendsControllerIntegrationTest.java:368-383 | sending back to someone with a request pending is refused, naming the pending request |
| FriendsProperties.SelfRequestRefused | project/user-service/src/test/java/com/stevenst/app/controller/FriendsControllerIntegrationTest.java:336-349 | a request from a known user to themself is always refused |
| FriendsProperties.SendThenAccept | project/user-service/src/test/java/com/stevenst/app/controller/FriendsControllerIntegrationTest.java:211-226 | accepting a request just sent succeeds, makes the pair friends and consumes the request |
| FriendsProperties.RolesSwapped | project/user-service/src/test/java/com/stevenst/app/controller/FriendsControllerIntegrationTest.java:402-483 | when only the reverse request exists, accept, cancel and decline get the role error with the request's real direction, not "not found" |
| FriendsProperties.NoRequestEitherWay | project/user-service/src/test/java/com/stevenst/app/controller/FriendsControllerIntegrationTest.java:419-498 | with no request in either direction, accept, cancel and decline are each refused as missing |
| FriendsProperties.WithdrawUndoesSend | project/user-service/src/test/java/com/stevenst/app/controller/FriendsControllerIntegrationTest.java:228-260 | cancelling or declining a request just sent gives back exactly the original database |
| FriendsProperties.FriendshipLifecycle | project/user-service/src/test/java/com/stevenst/app/controller/FriendsControllerIntegrationTest.java:211-277 | send, accept, then unfriend by either friend returns exactly the original database |
| FriendsProperties.UnfriendNeedsFriendship | project/user-service/src/test/java/com/stevenst/app/controller/FriendsControllerIntegrationTest.java:262-277 | unfriend succeeds exactly when checkFriendship reports a friendship; otherwise it is refused as missing |
| FriendsProperties.UnfriendSymmetric | project/user-service/src/main/java/com/stevenst/app/service/FriendsService.java:24 | unfriend(a, b) and unfriend(b, a) succeed together and leave the same database, in every database |
| FriendsProperties.CheckFriendshipSymmetric | project/user-service/src/main/java/com/stevenst/app/service/FriendsService.java:14 | checkFriendship gives the same answer for both argument orders |
| FriendsProperties.PartnersDistinct | project/user-service/src/main/java/com/stevenst/app/service/FriendsService.java:16 | with one row per pair, the list of friends has no name twice |
| FriendsProperties.GetAllFriendsExact | project/user-service/src/test/java/com/stevenst/app/controller/FriendsControllerIntegrationTest.java:172-209 | in a valid database the friends list names each friend exactly once, and is empty exactly when the user has no friends |
| FriendsResponses.Describe | project/user-service/src/test/java/com/stevenst/app/controller/FriendsControllerIntegrationTest.java:280-513 | an unknown user answers 404, every refusal answers 400 |
| FriendsResponses.Respond | project/user-service/src/test/java/com/stevenst/app/controller/FriendsControllerIntegrationTest.java:91-513 | 200 exactly when the operation succeeds, 404 exactly when a user is unknown, 400 exactly when both users are known and the operation is refused; on any answer other than 200 the database is left unchanged |
| FriendsResponses.CheckRequestReply | project/user-service/src/test/java/com/stevenst/app/controller/FriendsControllerIntegrationTest.java:106-137 | 200 exactly when the request runs from sender to receiver, otherwise 404 |
| FriendsResponses.CheckFriendshipReply | project/user-service/src/test/java/com/stevenst/app/controller/FriendsControllerIntegrationTest.java:139-170 | 200 exactly when the two are friends, otherwise 404 |
| FriendsResponses.FriendsListReply | project/user-service/src/test/java/com/stevenst/app/controller/FriendsControllerIntegrationTest.java:172-209 | for a known user, the list of getAllFriends, which names exactly that user's friends; for an unknown user, a 404 answer |
| FriendsScenarios.SendFriendRequestSucceeds | project/user-service/src/test/java/com/stevenst/app/controller/FriendsControllerIntegrationTest.java:91-104 | sending between fresh users answers 200 with the sent message, and the request is pending |
| FriendsScenarios.CheckFriendRequestFound | project/user-service/src/test/java/com/stevenst/app/controller/FriendsControllerIntegrationTest.java:106-121 | a stored request is reported found with status 200 |
| FriendsScenarios.CheckFriendRequestNotFound | project/user-service/src/test/java/com/stevenst/app/controller/FriendsControllerIntegrationTest.java:123-137 | a missing request is reported with status 404 |
| FriendsScenarios.CheckFriendshipFound | project/user-service/src/test/java/com/stevenst/app/controller/FriendsControllerIntegrationTest.java:139-154 | a stored friendship is reported found with status 200 |
| FriendsScenarios.CheckFriendshipNotFound | project/user-service/src/test/java/com/stevenst/app/controller/FriendsControllerIntegrationTest.java:156-170 | a missing friendship is reported with status 404 |
| FriendsScenarios.GetAllFriendsUsernames | project/user-service/src/test/java/com/stevenst/app/controller/FriendsControllerIntegrationTest.java:172-194 | a user stored in the second column of two rows gets both friends, and only them |
| FriendsScenarios.GetAllFriendsUsernamesNoFriends | project/user-service/src/test/java/com/stevenst/app/controller/FriendsControllerIntegrationTest.java:196-209 | a user without friends gets the empty list |
| FriendsScenarios.AcceptFriendRequestSucceeds | project/user-service/src/test/java/com/stevenst/app/controller/FriendsControllerIntegrationTest.java:211-226 | accepting answers 200 with the accepted message, and the pair become friends |
| FriendsScenarios.CancelFriendRequestSucceeds | project/user-service/src/test/java/com/stevenst/app/controller/FriendsControllerIntegrationTest.java:228-243 | cancelling answers 200 with the canceled message and empties the requests |
| FriendsScenarios.DeclineFriendRequestSucceeds | project/user-service/src/test/java/com/stevenst/app/controller/FriendsControllerIntegrationTest.java:245-260 | declining answers 200 with the declined message and empties the requests |
| FriendsScenarios.UnfriendSucceeds | project/user-service/src/test/java/com/stevenst/app/controller/FriendsControllerIntegrationTest.java:262-277 | unfriending answers 200 with the unfriend message and empties the friendship table |
| FriendsScenarios.UnknownUserEverywhere | project/user-service/src/test/java/com/stevenst/app/controller/FriendsControllerIntegrationTest.java:280-334 | every endpoint answers 404 "User with username … not found" for an unknown user in either position, and changes nothing |
| FriendsScenarios.SendFriendRequestToSelf | project/user-service/src/test/java/com/stevenst/app/controller/FriendsControllerIntegrationTest.java:336-349 | a request to oneself answers 400 with the to-oneself message |
| FriendsScenarios.SendFriendRequestAlreadyFriends | project/user-service/src/test/java/com/stevenst/app/controller/FriendsControllerIntegrationTest.java:351-366 | a row (andrew, bobby) blocks bobby's request to andrew with the already-friends message |
| FriendsScenarios.SendFriendRequestAlreadyReceivingOne | project/user-service/src/test/java/com/stevenst/app/controller/FriendsControllerIntegrationTest.java:368-383 | a request answering a pending one answers 400, naming the pending request |
| FriendsScenarios.SendFriendRequestAlreadySentOne | project/user-service/src/test/java/com/stevenst/app/controller/FriendsControllerIntegrationTest.java:385-400 | a repeated request answers 400 with the twice message |
| FriendsScenarios.AcceptingOnesOwnRequest | project/user-service/src/test/java/com/stevenst/app/controller/FriendsControllerIntegrationTest.java:402-417 | the sender accepting answers 400, naming the request in its real direction |
| FriendsScenarios.AcceptFriendRequestDoesntExist | project/user-service/src/test/java/com/stevenst/app/controller/FriendsControllerIntegrationTest.java:419-432 | accepting a missing request answers 400 with the not-found message |
| FriendsScenarios.CancelingSomeoneElsesRequest | project/user-service/src/test/java/com/stevenst/app/controller/FriendsControllerIntegrationTest.java:434-451 | the receiver cancelling answers 400 with the someone-else's message |
| FriendsScenarios.CancelFriendRequestDoesntExist | project/user-service/src/test/java/com/stevenst/app/controller/FriendsControllerIntegrationTest.java:453-466 | cancelling a missing request answers 400 with the not-found message |
| FriendsScenarios.DecliningOnesOwnRequest | project/user-service/src/test/java/com/stevenst/app/controller/FriendsControllerIntegrationTest.java:468-483 | the sender declining answers 400 with the one's-own message |
| FriendsScenarios.DeclineFriendRequestDoesntExist | project/user-service/src/test/java/com/stevenst/app/controller/FriendsControllerIntegrationTest.java:485-498 | declining a missing request answers 400 with the not-found message |
| FriendsScenarios.UnfriendFriendshipDoesntExist | project/user-service/src/test/java/com/stevenst/app/controller/FriendsControllerIntegrationTest.java:500-513 | unfriending non-friends answers 400 with the no-friendship message |
| AuthenticationService.FindBy | project/security-service/src/main/java/com/stevenst/app/service/impl/AuthenticationServiceImpl.java:37-45 | finds nothing exactly when no account has the key; what it finds is a stored account with that key |
| AuthenticationService.Register | project/security-service/src/main/java/com/stevenst/app/service/impl/AuthenticationServiceImpl.java:30-60 | a blank or missing field gives "Credentials cannot be empty"; a taken email gives "Email already taken" before the username is checked; a taken username comes next; success, exactly when every check passes, appends one account with the given email and username, the encoded password and role USER, and signs the token for that account |
| AuthenticationService.Login | project/security-service/src/main/java/com/stevenst/app/service/impl/AuthenticationServiceImpl.java:62-82 | a blank or missing field gives "Credentials cannot be empty"; otherwise "User not found" exactly when no account has the email, and "Invalid credentials" exactly when one does and the authentication manager rejects the pair; success exactly when every check passes, with the token signed for a stored account with that email |
| AuthenticationService.FindInAppended | project/security-service/src/main/java/com/stevenst/app/service/impl/AuthenticationServiceImpl.java:37-54 | after a save, a lookup finds what it found before, or else the new account if its key matches |
| AuthenticationService.FindUnique | project/security-service/src/main/java/com/stevenst/app/service/impl/AuthenticationServiceImpl.java:68-69 | in a store with no duplicate keys, the lookup by an account's key finds that account |
| AuthenticationService.LoginSignsOwnAccount | project/security-service/src/main/java/com/stevenst/app/service/impl/AuthenticationServiceImpl.java:62-82 | with unique emails, a login that passes every check is signed for the account with that email |
| AuthenticationService.RegisterKeepsUnique | project/security-service/src/main/java/com/stevenst/app/service/impl/AuthenticationServiceImpl.java:37-54 | a successful registration keeps emails and usernames unique in the store |
| AuthenticationService.RegisterTwice | project/security-service/src/main/java/com/stevenst/app/service/impl/AuthenticationServiceImpl.java:37-54 | registering the same request again after a success gives "Email already taken" |
| AuthenticationService.EmailCheckedBeforeUsername | project/security-service/src/main/java/com/stevenst/app/service/impl/AuthenticationServiceImpl.java:37-45 | when both the email and the username are taken, the email is what gets reported |
| AuthenticationService.RegisterThenLogin | project/security-service/src/main/java/com/stevenst/app/service/impl/AuthenticationServiceImpl.java:30-82 | after a registration, a login with the same email and password that the authentication manager accepts is signed for the new account |
| AuthenticationScenarios.RegisterSucceeds | project/security-service/src/test/java/com/stevenst/app/service/impl/AuthenticationServiceImplTest.java:55-70 | registering into an empty store succeeds and stores exactly the one account with its encoded password |
| AuthenticationScenarios.LoginSucceeds | project/security-service/src/test/java/com/stevenst/app/service/impl/AuthenticationServiceImplTest.java:72-84 | logging in to a stored account that the authentication manager accepts is signed for that account |
| AuthenticationScenarios.RegisterWithBlankCredentials | project/security-service/src/test/java/com/stevenst/app/service/impl/AuthenticationServiceImplTest.java:86-154 | an empty field, a missing field or the empty request gives "Credentials cannot be empty" |
| AuthenticationScenarios.RegisterEmailAlreadyExists | project/security-service/src/test/java/com/stevenst/app/service/impl/AuthenticationServiceImplTest.java:122-132 | a stored email gives "Email already taken" |
| AuthenticationScenarios.RegisterUsernameAlreadyExists | project/security-service/src/test/java/com/stevenst/app/service/impl/AuthenticationServiceImplTest.java:134-144 | a stored username with a free email gives "Username already taken" |
| AuthenticationScenarios.LoginWithBlankCredentials | project/security-service/src/test/java/com/stevenst/app/service/impl/AuthenticationServiceImplTest.java:156-190 | an empty email, an empty password or the empty request gives "Credentials cannot be empty" |
| AuthenticationScenarios.LoginUnknownEmail | project/security-service/src/main/java/com/stevenst/app/service/impl/AuthenticationServiceImpl.java:68-69 | an email with no account gives "User not found", whatever the authentication manager would say |

## Left out

- The friends service implementation is not part of this model. Its behaviour is derived from three sources: the operation set in `FriendsService.java`, the repository queries, and the controller integration test, which fixes every guard, status and message.
- Guard order: the model resolves the first username, then the second, before any relation guard, and for a send then checks oneself, already friends, request received and request sent. The tests fix none of the orders between two failing guards: no test has two unknown users, or an unknown user sending to themself. Resolving identities before the relation guards is this model's choice. The last three send guards cannot hold together in a valid database, so their order cannot be observed.
- Reversed-role calls: when only the reverse request exists, accept, cancel and decline answer with the role error and the request's real direction, as the integration tests require (lines 402-417, 434-451, 468-483). They do not answer that no request was found.
- Notifications the service emits are not modelled: they are delivery side effects.
- Per-pair locking and concurrent calls: the model is sequential.
- HTTP transport: the check endpoints answer HTTP 200 with status 404 in the body. Only the body status and message are modelled.
- Users are identified by username only; other user fields and database ids are not modelled.
- Row order of `findAllByUser`: the database gives no order, and the model returns rows in table order. Every property about the friends list speaks only of membership, count and distinctness.
- The password encoder, JWT generation and the authentication manager are function parameters. The manager is a yes/no oracle; authentication exceptions other than rejection are not modelled.
- `findByEmail` and `findByUsername` are modelled as returning the first stored account with the key. That choice only matters for a store with duplicate keys, and `RegisterKeepsUnique` shows that registration never creates one.
- `Role` has only `USER`, the one role registration assigns; other roles are not part of this model.
- The login unit test at `AuthenticationServiceImplTest.java:170-180` expects the message "Invalid credentials or inexistent account" for an unknown email. The code answers "User not found" there, and the model follows the code (`LoginUnknownEmail`).
- The legacy `backend/` authentication service, the frontend, S3 uploads, posts, chat, maps and the security filter chain are outside the modelled core.
