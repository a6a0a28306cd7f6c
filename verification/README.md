# Verified model of the ZITADEL command layer

ZITADEL's command layer is event-sourced. A command loads events into a write model by folding them
(`Reduce`), decides on the result, and pushes new events to an append-only log. This project models
three parts of that layer, in the form the source gives them (classes with fields that a loop over
events updates, and commands that load, check and push), and proves properties of them over
unbounded logs and runs.

* **The OIDC code flow** (`EventLog`, `Tokens`, `AuthRequestModel`, `OIDCSessionModel`, `OIDCFlow`,
  `OIDCCommands`, `AuthRequestRuns`, `AuthRequestLanguage`, `OIDCSessionRuns`, `OIDCSessionLanguage`,
  `RefreshRotation`, `SessionPairing`, `TokenUse`, `AccessTokens`, `CommandOutcomes`). Auth requests and
  OIDC sessions are two aggregates in one log. `OIDCFlow` is the transition system of the nine steps
  (`Decide`, `Next`, `Exec`); `OIDCCommands` has the commands as methods on a class that holds the log,
  each proved to take exactly the step of the transition system, so what the other modules prove of all
  runs holds of all histories of that class. `AuthRequestLanguage` and `OIDCSessionLanguage` show the
  grammar of auth request logs and the timed language of session logs to be exact: every word of either
  is the log of some run. `CommandOutcomes` says of each command, after any run, exactly when it is
  accepted, what it pushes and how it fails, in terms of the log.
* **Collections edited in place** (`Slices`, `InstanceDomains`, `KeyedLists`, `OrgFolds`,
  `DomainPolicyOrgs`). Swap-remove loops over slices against sets, multisets and maps. The loop that
  ranges over a slice while a callee rewrites its backing array is modelled on a real array.
* **Agreement of read models** (`Actions`, `ActionCommands`, `MessageTexts`, `IdentityProviders`,
  `ProviderDispatch`, `ProviderCommands`).
  The action list against the action, the quota, the map of message texts against the single text,
  and the two-stage load of an identity provider against the model of its removal.

`Wrappers` has the optional and result types with the error constructors of `internal/errors`;
`Folds` has the value that was given last; `Strings` has `strings.TrimSpace`.

## Assumptions

* Loading, checking and pushing of one command are one step of a run.
* The id generator never repeats, and its ids contain neither `-` nor `:` (`OIDCFlow.Fresh`).
* One clock that never goes back serves `time.Now` and the creation date of events (`OIDCFlow.Wait`
  lets time pass); a command pushes at the instant it checks.
* Encrypting and encoding a token, and the way back, are an inverse pair (`OIDCFlow.Inverse`). That is
  needed only where a token has to be made; what is said of tokens that are presented holds for every
  token that decrypts to the text in question (`OIDCFlow.Carries`).
* No event is stored under an empty id, so linking the empty login session finds none.
* The text of a language tag does not start with a capital letter (`MessageTexts.IsTag`): it starts with
  the language subtag, which the canonical form has in lower case.
* What a command reads of a login session (state, user, authentication time and methods), whether the
  user has a resource owner, and what the permission check answers, are parameters of the command.
* `WriteModel.Reduce` clears the events. `InstanceWriteModel.Reduce` and
  `InstanceDomainWriteModel.Reduce` do not call it, and their models keep them.

## Where the code is not what its comments or names suggest

* Revoking with a well-formed token of a session that does not exist fails with the error of the
  audience check (`internal/command/oidc_session.go:130-132`), although the comment above says that
  invalid tokens are ignored. `OIDCSessionRuns.RevocationFails` says exactly when a revocation fails, and
  `OIDCSessionRuns.UnknownSessionIsRefused` has a token that is refused in an empty store.
* The session query names five of six event types
  (`internal/command/oidc_session_model.go:69-75`), so a reload does not see the revocation of an
  access token. `OIDCSessionModel.FilteredLoad` says exactly what a reload then sees, and
  `OIDCSessionModel.RevocationForgotten` that it is as if nothing had been pushed; the same revocation
  is then pushed again (`AccessTokens.RevokedAgain`).
* The two parsers treat the subject of a refresh token differently
  (`internal/command/oidc_session.go:100-112` and `220-228`): one drops it, the other
  keeps it as part of the id. So the text with the subject, as it is encrypted for the client, never
  revokes a session; whoever revokes has to pass the text without it. `Tokens.ParsersAgree` and
  `CommandOutcomes.SubjectRevokesNothing` have the details.
* An auth request can be linked again while it is in state added
  (`internal/command/auth_request.go:87-89`); the last link counts.
* That the type of a provider is active says that the model of the type is; the converse can fail.
  A migrated Google or AzureAD model ignores the removal of the old configuration, and no model of a new
  type sees another type being added. `ProviderDispatch.DispatchConverse` has the exact condition for
  the eight types without old events, `DispatchConverseOld` the one for OIDC and JWT, whose models both
  open on an old configuration of either type.
* An old SAML configuration makes `IDPRemoveWriteModel` active and leaves `IDPTypeWriteModel` as it
  was. `ProviderDispatch.RemovalAgrees` has the exact condition, `UnknownConfigDiffers` an instance.
* A provider known only by an old configuration of another type, such as SAML, opens the OIDC model and
  can be migrated, but then loads as an empty model of the target: `ProviderCommands.MigratedLoads` has
  both cases.
* `actionsIDsExist` compares lengths, so it is false for a request that names an existing action
  twice: `Actions.NamedTwice`, and `Actions.LengthsMeanAllExist` for what the answer means.

## Model

| member | source | states |
|---|---|---|
| `Tokens.Split` | internal/command/oidc_session.go:100-112 | the parts joined by the separator are the text, and no part contains the separator; together this is all `strings.Split` can be |
| `Tokens.RefreshTokenRoundTrip` | internal/command/oidc_session.go:324-335 | a refresh token parses back to its session and refresh token id for every user id, also one with `-` or `:` in it |
| `Tokens.AccessTokenRoundTrip` | internal/command/oidc_session.go:337-349 | an access token parses back through the revocation parser as an access token, and never as a refresh token |
| `Tokens.PlainRefreshTokenRoundTrip` | internal/command/oidc_session.go:100-112 | a refresh token without its subject parses back through the revocation parser as a refresh token |
| `Tokens.ParsersAgree` | internal/command/oidc_session.go:220-228 | on two-part tokens both parsers accept the same refresh tokens with the same session; the refresh ids are the same exactly when the second part has no `:` |
| `Tokens.ParsedIDsPrefixed` | internal/command/oidc_session.go:100-112 | a parsed id has its prefix, so it is never the empty id that a revocation leaves |
| `Tokens.AcceptedForRevocation` | internal/command/oidc_session.go:100-112 | the revocation parser accepts exactly a session and an id with one of the two prefixes, joined by the only `-` of the text |
| `Tokens.AcceptedForRefresh` | internal/command/oidc_session.go:220-228 | the refresh parser accepts exactly a session and a refresh token id joined by `-`, alone or followed by a `-` or a `:` and anything |
| `AuthRequestModel.AuthRequestWriteModel.Reduce` | internal/command/auth_request_model.go:48-84 | the loop over the pending events leaves the fold of them in the fields and no pending events |
| `AuthRequestModel.IncrementalEqualsReload` | internal/command/command.go:170-181 | a loaded auth request that reduces what was pushed, events of other aggregates included, is a fresh load of the longer log |
| `OIDCSessionModel.OIDCSessionWriteModel.Reduce` | internal/command/oidc_session_model.go:44-62 | the loop over the pending events leaves the fold of them in the fields and no pending events |
| `OIDCSessionModel.OIDCSessionWriteModel.CheckClient` | internal/command/oidc_session_model.go:156-163 | succeeds exactly if the client is in the audience |
| `OIDCSessionModel.FilteredLoad` | internal/command/oidc_session_model.go:64-82 | on every log the load through the query agrees with the whole log on all fields but the two of the access token; on those as well unless the last access token event is a revocation, and then it holds what the event before that left |
| `OIDCSessionModel.IncrementalEqualsReload` | internal/command/oidc_session.go:337-349 | a loaded session that reduces what was pushed, the success of the auth request included, is a fresh load of the longer log, unless an access token was revoked |
| `OIDCSessionModel.RevocationForgotten` | internal/command/oidc_session_model.go:105-108 | after an access token revocation a reload is the load of before, and says when the reduced model is too |
| `OIDCCommands.OIDCSessionEvents.AddSession` | internal/command/oidc_session.go:276-288 | appends the start of the session with the grant of the auth request and the login, and changes nothing else |
| `OIDCCommands.OIDCSessionEvents.AddAccessToken` | internal/command/oidc_session.go:294-302 | appends an access token with the prefixed generated id and remembers that id |
| `OIDCCommands.OIDCSessionEvents.AddRefreshToken` | internal/command/oidc_session.go:304-312 | appends a refresh token and keeps the encrypted text that carries session, token id and user |
| `OIDCCommands.OIDCSessionEvents.RenewRefreshToken` | internal/command/oidc_session.go:314-322 | appends a renewal and keeps the encrypted text of the new token for the user of the loaded session |
| `OIDCCommands.OIDCSessionEvents.SetAuthRequestSuccessful` | internal/command/oidc_session.go:290-292 | appends the success of the auth request |
| `OIDCCommands.Commands.AddAuthRequest` | internal/command/auth_request.go:42-77 | takes the step of the transition system, fails only as it does, and returns what the log now loads to |
| `OIDCCommands.Commands.LinkSessionToAuthRequest` | internal/command/auth_request.go:79-115 | takes the step of the transition system with its five errors in order |
| `OIDCCommands.Commands.FailAuthRequest` | internal/command/auth_request.go:117-134 | takes the step of the transition system and returns what the log now loads to |
| `OIDCCommands.Commands.AddAuthRequestCode` | internal/command/auth_request.go:136-149 | takes the step of the transition system, pushing one event or failing |
| `OIDCCommands.Commands.ExchangeAuthCode` | internal/command/auth_request.go:151-168 | takes the step of the transition system and returns what the log now loads to |
| `OIDCCommands.Commands.AddOIDCSession` | internal/command/oidc_session.go:33-64 | both mint commands: takes the step of the transition system in one batch; the returned expiration is creation plus lifetime and the token texts carry the ids that were pushed |
| `OIDCCommands.Commands.ExchangeOIDCSessionRefreshAndAccessToken` | internal/command/oidc_session.go:68-80 | takes the step of the transition system; the returned expiration is that of a fresh load and is creation plus lifetime |
| `OIDCCommands.Commands.OIDCSessionByRefreshToken` | internal/command/oidc_session.go:84-98 | answers the session of the token exactly if the token passes the check on the loaded session, and otherwise the error of the parser or of the check |
| `OIDCCommands.Commands.RevokeOIDCSessionToken` | internal/command/oidc_session.go:119-147 | takes the step of the transition system: no error for a malformed or unacceptable token, the error of the audience check for a foreign client |
| `OIDCCommands.Commands.CurrentIsReachable` | internal/command/oidc_session.go:33-147 | the store of the commands is reachable after every history, so all that is proved of reachable stores holds of it |
| `OIDCCommands.Commands.PushAppendAndReduce` | internal/command/command.go:170-176 | after pushing, the model that reduced the events is a fresh load of the log |
| `OIDCCommands.Commands.PushEvents` | internal/command/oidc_session.go:337-349 | pushes the batch, reduces it into the session, and returns the token text and expiration of the reduced model |
| `AuthRequestRuns.RequestLogsAreWords` | internal/command/auth_request.go:42-168 | in every run the log of every auth request is added, links to login sessions, and then nothing, a failure, a code that may be exchanged and may then succeed, or a direct success; with the response types and the linked session each ending needs |
| `AuthRequestRuns.WordState` | internal/command/auth_request_model.go:48-84 | the write model of such a log: the request of its first event, its last link, the state of its last event |
| `AuthRequestRuns.PushedToRequest` | internal/command/auth_request.go:79-168 | a command pushes at most one event of any auth request, and only one that the model loaded for it allows |
| `AuthRequestRuns.FinishedRequestIsFrozen` | internal/command/auth_request.go:87-89 | after a failure or success no run adds to the request, and it loads the same forever |
| `AuthRequestRuns.CodeIsSingleUse` | internal/command/auth_request.go:151-168 | once a code has been exchanged, exchanging it is refused after every continuation of the run (section 4.1.2 of RFC 6749) |
| `AuthRequestLanguage.LogsAreExactlyWords` | internal/command/auth_request.go:42-168 | the logs that runs give an auth request are exactly the words of the grammar with creation dates in order: each such word is reached by some run |
| `AuthRequestLanguage.WordOccurs` | internal/command/oidc_session.go:33-64 | for every word a run of the commands that leaves it as the log of the request |
| `OIDCSessionRuns.SessionLogsAreWords` | internal/command/oidc_session.go:33-147 | in every run the log of every session is a birth batch, then revocations of access tokens that have not expired and refreshes inside the window, and perhaps one last revocation of the refresh token inside the window; and all ids in the log stem from the generator |
| `OIDCSessionLanguage.SessionLogsAreExactlyWords` | internal/command/oidc_session.go:33-147 | the logs that runs give a session are exactly the words of the timed language with dates in order, generated ids and lifetimes that the settings can give: each such word is reached by some run |
| `OIDCSessionLanguage.SessionLogOccurs` | internal/command/oidc_session.go:33-147 | for every such word a run of the commands that leaves it as the log of the session |
| `OIDCSessionRuns.WordState` | internal/command/oidc_session_model.go:84-127 | the session loaded for such a log is active, has the grant of its first event, the limits of the window and the tokens issued last |
| `OIDCSessionRuns.PushedToSession` | internal/command/oidc_session.go:149-255 | what a command adds to a session is nothing, the birth of a new session, or a continuation that the window allows |
| `OIDCSessionRuns.RevocationIsFinal` | internal/command/oidc_session_model.go:121-154 | after the revocation of the refresh token no run adds to the session and both its token ids stay empty (section 2.1 of RFC 7009) |
| `OIDCSessionRuns.RevokedIsRefused` | internal/command/oidc_session.go:119-147 | after every continuation of the run every refresh of the session is refused and no revocation pushes anything to it |
| `OIDCSessionRuns.RevocationFails` | internal/command/oidc_session.go:119-147 | after any run a revocation fails, with the error of the audience check, if and only if the token is well-formed and its session does not exist or does not have the client in the audience of its first event |
| `OIDCSessionRuns.UnknownSessionIsRefused` | internal/command/oidc_session.go:130-132 | in an empty store a well-formed token is refused with that error |
| `OIDCSessionRuns.WindowMeaning` | internal/command/oidc_session_model.go:110-119 | the window in terms of events: the absolute limit is that of the first refresh token, the idle limit that of the latest |
| `OIDCSessionRuns.AcceptedInTime` | internal/command/oidc_session_model.go:129-141 | every renewal and revocation of a refresh token in a session log lies within the lifetime of the first refresh token and the idle lifetime of the latest; renewals never extend the first |
| `OIDCSessionRuns.RefreshAcceptedInTime` | internal/command/oidc_session.go:230-255 | a refresh that is accepted after any run is accepted within both limits |
| `OIDCSessionRuns.AccessTokenBound` | internal/command/oidc_session_model.go:100-103 | no access token of a session outlives the first refresh token's lifetime by more than the largest access token lifetime; without refresh token there is one access token, the first |
| `RefreshRotation.RefreshTokensDistinct` | internal/command/oidc_session.go:304-335 | in every run no refresh token id is issued twice in the whole log |
| `RefreshRotation.CurrentRefreshToken` | internal/command/oidc_session_model.go:110-127 | on every log the loaded refresh token id is the one that the last issue, renewal or revocation left |
| `RefreshRotation.OnlyTheLatestTokenRefreshes` | internal/command/oidc_session.go:207-255 | after any run a refresh with an issued token is refused, pushing nothing, by every session but its own and by its own once a later event renewed or revoked it, although the update path ignores the session inside the token (section 10.4 of RFC 6749) |
| `RefreshRotation.SupersededForever` | internal/command/oidc_session.go:230-255 | a token that has been renewed or revoked is refused after every continuation of the run |
| `RefreshRotation.TheLatestTokenRefreshes` | internal/command/oidc_session.go:68-80 | the latest token of a session, presented to it inside the window, is accepted (section 6 of RFC 6749) |
| `RefreshRotation.RefreshesIffCurrent` | internal/command/oidc_session_model.go:129-141 | after any run an issued token refreshes a session if and only if it was issued for it, nothing has renewed or revoked it since, and both limits hold |
| `RefreshRotation.RefreshPresentsCurrent` | internal/command/oidc_session.go:230-255 | in every store and for every token, a refresh that succeeds has presented the refresh token id that the session's last rotation issued |
| `AccessTokens.RevocableIffLatest` | internal/command/oidc_session_model.go:143-154 | after any run, revoking an access token that a session issued pushes the revocation if and only if it is the latest of a session not revoked, it has not expired, and the client is in the audience |
| `AccessTokens.RevokedAgain` | internal/command/oidc_session_model.go:64-82 | in every store an access token revocation that has been pushed is pushed again when it is asked for again |
| `SessionPairing.SessionsAndSuccessesCorrespond` | internal/command/oidc_session.go:149-189 | after every run successes and session starts correspond one to one: a success closes the batch of its session, no request succeeds twice, no session starts twice, each session has a success, and session id, client, audience and scope of the session are those its request loads to now |
| `SessionPairing.PairKept` | internal/command/auth_request_model.go:67-71 | no command changes what a succeeded request or the grant of its session loads to |
| `SessionPairing.MintedPair` | internal/command/oidc_session.go:276-292 | after a mint the session and the success it pushed are such a pair |
| `TokenUse.MintedTokenRefreshes` | internal/command/oidc_session.go:50-82 | after any run a token that decrypts to the refresh token a mint returns refreshes its session as long as the wait is within both lifetimes granted |
| `TokenUse.RenewedTokenRefreshes` | internal/command/oidc_session.go:68-82 | likewise the token that a refresh returns, within its idle lifetime and the absolute limit of the session |
| `CommandOutcomes.LinkFields` | internal/command/auth_request_model.go:67-71 | on every log, the login session, user, authentication time and methods of the model are those of the last link |
| `CommandOutcomes.AddOutcome` | internal/command/auth_request.go:42-77 | after any run an auth request is added exactly as given if its id has no events, and fails otherwise |
| `CommandOutcomes.LinkOutcome` | internal/command/auth_request.go:79-115 | after any run a link is accepted, and pushes what the login session holds, if and only if the log of the request is an addition followed by links only, the caller is the login client of the addition wherever that is checked, the login exists and permission is granted; each failure has its error |
| `CommandOutcomes.FailOutcome` | internal/command/auth_request.go:117-134 | after any run a request is failed if and only if its log is an addition followed by links only |
| `CommandOutcomes.AddCodeOutcome` | internal/command/auth_request.go:136-149 | after any run a code is added if and only if it is not empty and the log of the request is an addition followed by links, the last of which names a login session |
| `CommandOutcomes.ExchangeOutcome` | internal/command/auth_request.go:151-168 | after any run a code is exchanged if and only if the log of its request ends with the code |
| `CommandOutcomes.MintOutcome` | internal/command/oidc_session.go:149-189 | after any run tokens are minted, with the grant of the first event and the last link of the request, if and only if the last link names a login session, a request for a code has had it exchanged and nothing since, one for ID tokens has had nothing but links, the login is active and the owner is known; each failure has its error |
| `CommandOutcomes.PushedLifetimes` | internal/command/oidc_session.go:351-371 | in every store each lifetime that a mint or a refresh pushes is the setting of the instance if that is positive and the default of the same lifetime otherwise |
| `CommandOutcomes.RefreshOutcome` | internal/command/oidc_session.go:230-255 | after any run, what a refresh pushes or which error it has for a token that carries an issued refresh token: in terms of the session, the later rotations in the log and the window |
| `CommandOutcomes.RefreshByID` | internal/command/oidc_session.go:68-80 | in every store, a refresh with any token that decrypts to an id pushes a new access token and a renewal, or fails as the check of that id does |
| `CommandOutcomes.LookupOutcome` | internal/command/oidc_session.go:84-98 | after any run the clear text of an issued refresh token names its session and passes its check exactly while it is the current one |
| `CommandOutcomes.RevokeOutcome` | internal/command/oidc_session.go:119-147 | after any run, revoking with an issued refresh token fails for a client outside the audience, revokes the session if the token is its latest and both limits hold, and otherwise pushes nothing (section 2.1 of RFC 7009) |
| `CommandOutcomes.RevocationPresentsCurrent` | internal/command/oidc_session.go:133-138 | in every store and for every token, a refresh token revocation that is pushed has presented the id that the last rotation of the session issued |
| `CommandOutcomes.SubjectRevokesNothing` | internal/command/oidc_session.go:100-112 | after any run the text of a refresh token with its subject never revokes the session |
| `Slices.SwapRemoveAllMultiset` | internal/command/instance_domain_model.go:124-133 | the backward swap-remove loop leaves exactly the other elements, each as often as before |
| `InstanceDomains.StringSlice.RemoveAll` | internal/command/instance_domain_model.go:124-133 | on the backing array: stays in bounds, leaves the swap-removed contents, blanks what is no longer in use and touches nothing beyond |
| `InstanceDomains.InstanceWriteModel.RemoveInRange` | internal/command/instance_model.go:49-54 | the range over the old slice whose body shortens it and blanks the shared array stays in bounds and equals one removal |
| `InstanceDomains.InstanceWriteModel.Reduce` | internal/command/instance_model.go:34-64 | fields and domain list are the folds of the events, which stay pending |
| `InstanceDomains.InstanceDomainsWriteModel.Reduce` | internal/command/instance_domain_model.go:112-122 | the domain list is the fold of the events |
| `InstanceDomains.InstanceDomainWriteModel.Reduce` | internal/command/instance_domain_model.go:47-59 | state and generated flag are the fold of the events of the one domain |
| `InstanceDomains.ListedIffActive` | internal/command/instance_domain_model.go:30-59 | on every log a name is listed exactly if the model of that one domain is active |
| `InstanceDomains.ListedAsOftenAsAdded` | internal/command/instance_domain_model.go:112-122 | on every log a name is listed as often as it was added since its last removal |
| `InstanceDomains.DomainsInEveryRun` | internal/command/instance_domain.go:87-116 | in every run the list is duplicate-free and is the set of active domains, and a generated domain stays listed in every continuation |
| `InstanceDomains.AddOutcome` | internal/command/instance_domain.go:87-116 | on every log a domain is added exactly if the trimmed name is not empty, has allowed characters only and is not listed |
| `InstanceDomains.RemoveOutcome` | internal/command/instance_domain.go:184-203 | after any run a domain is removed exactly if the trimmed name is listed and was never added as a generated one |
| `InstanceDomains.InstanceFieldsAreLatest` | internal/command/instance_model.go:34-64 | on every log name, state, generated domain, default organisation, project and language are the ones given last |
| `InstanceDomains.Commands.AddInstanceDomain` | internal/command/instance_domain.go:87-116 | takes the step of the transition system with its errors; on success the trimmed name is listed, once |
| `InstanceDomains.Commands.RemoveInstanceDomain` | internal/command/instance_domain.go:184-203 | takes the step of the transition system with its errors; on success the trimmed name is no longer listed |
| `InstanceDomains.Commands.LoadLists` | internal/command/instance_domain_model.go:79-110 | after any history both list models, each loaded with the events of its own query, hold the same duplicate-free list |
| `KeyedLists.ListIsMap` | internal/command/org.go:626-662 | a list of entries edited by id is the map of latest values all along if and only if no id is added while present; changing all entries of an id or the first comes to the same |
| `OrgFolds.OrgDomains` | internal/command/org.go:584-600 | the loops return names with the counts of a multiset that removal saturates at zero |
| `OrgFolds.OrgUserIDPLinks` | internal/command/org.go:490-523 | likewise for links by configuration and external user, cascaded removals included |
| `OrgFolds.OrgUsers` | internal/command/org.go:626-662 | if no present user is added again, the names are the latest of each user, one for each |
| `OrgFolds.OrgSamlEntityIDs` | internal/command/org.go:542-569 | if no present application is added again, the entity ids are the latest of each application, one for each |
| `OrgFolds.LatestNames` | internal/command/org.go:626-662 | the latest name of a user, in terms of its own events: given by the last naming since it was added, none once it is removed |
| `OrgFolds.LatestEntities` | internal/command/org.go:542-569 | the same for the entity id of an application |
| `OrgFolds.NamesAreCounts` | internal/command/org.go:584-600 | the first-match swap-remove fold has the counts of the multiset fold on every log |
| `OrgFolds.LinksAreCounts` | internal/command/org.go:490-523 | the same for links, by key |
| `DomainPolicyOrgs.DomainPolicyOrgsWriteModel.Reduce` | internal/command/instance_policy_domain_model.go:96-114 | the loops leave the fold of the events |
| `DomainPolicyOrgs.DefaultAllAlongIff` | internal/command/instance_policy_domain_model.go:96-114 | the list is, without duplicates, the orgs without a policy of their own after every event if and only if none is listed once more while it is one of them |
| `DomainPolicyOrgs.FoldedOrgsAreDefault` | internal/command/instance_policy_domain_model.go:96-114 | if orgs are added once and policies added and removed in turns, the list is, without duplicates, the orgs without a policy of their own |
| `DomainPolicyOrgs.EachVisitedOnce` | internal/command/instance_policy_domain.go:126-139 | going through a duplicate-free list gives each of its orgs its events once and no other org any |
| `DomainPolicyOrgs.ChangesAreDifference` | internal/command/instance_policy_domain_model.go:56-78 | applied to the current flags the changes give the wanted ones, and they name exactly the flags that differ |
| `DomainPolicyOrgs.ChangeDefaultDomainPolicy` | internal/command/instance_policy_domain.go:97-142 | one error each without policy and without change; the event turns the current flags into the wanted ones and names exactly those that differ; if the login rule changes, exactly the orgs that follow the default get their username events, each once |
| `Actions.ListIsExistingActions` | internal/command/org_action_model.go:174-195 | on every log the commands can produce the list never edits a missing entry and holds exactly the existing actions, each with the state its own model folds to and the date and name of its addition |
| `Actions.CheckedAreExisting` | internal/command/org_action_model.go:129-146 | the checked ids are, without duplicates, the requested ids that exist |
| `Actions.LengthsMeanAllExist` | internal/command/org_flow.go:79-83 | comparing lengths is true exactly if all requested actions exist and none was named twice |
| `Actions.NamedTwice` | internal/command/org_flow.go:79-83 | a request that names one action twice never has as many checked ids as requested ones |
| `ActionCommands.ActionWriteModel.AppendAndReduce` | internal/command/org_action_model.go:31-62 | the fields are the fold of the events |
| `ActionCommands.ActionsListByOrgModel.Reduce` | internal/command/org_action_model.go:174-195 | the map is the fold of the events if that edits no missing entry |
| `ActionCommands.ActionExistsModel.Reduce` | internal/command/org_action_model.go:129-146 | the checked ids are the fold of the events, the last match swap-removed |
| `ActionCommands.DeactivateNotAllowed` | internal/command/org_action.go:205-228 | returns active actions without duplicates, as many as exceed the quota, and none of them older than one it keeps |
| `ActionCommands.QuotaHolds` | internal/command/org_action.go:205-228 | after those are deactivated the refolded list has exactly the smaller of quota and active actions active, no other action has changed, and a second run deactivates nothing |
| `ActionCommands.Commands.AddAction` | internal/command/org_action.go:26-60 | adds the action under the new id, with the one error for an empty name |
| `ActionCommands.Commands.ChangeAction` | internal/command/org_action.go:62-95 | pushes a change of exactly the fields that differ, after which the action has the wanted body; one error each for an invalid request, a missing action and no change |
| `ActionCommands.Commands.DeactivateAction` | internal/command/org_action.go:97-125 | succeeds exactly on an active action and leaves it inactive, with one error each for missing ids, a missing action and another state |
| `ActionCommands.Commands.ReactivateAction` | internal/command/org_action.go:127-156 | succeeds exactly on an inactive action and leaves it active, with one error each for missing ids, a missing action and another state |
| `ActionCommands.Commands.DeleteAction` | internal/command/org_action.go:158-187 | succeeds exactly on an existing action, with one error each for missing ids and a missing action; leaves it removed and pushes one removal from the triggers for each flow type, in order |
| `ActionCommands.Commands.ApplyQuota` | internal/command/org_action.go:205-228 | loads the list, which every history keeps loadable, and pushes the surplus |
| `MessageTexts.CustomMessageTextReadModel.Reduce` | internal/command/custom_message_text_model.go:27-96 | the seven texts and the state are the fold of the events of the template and language |
| `MessageTexts.LoadedTextsAreLatest` | internal/command/custom_message_text_model.go:27-96 | on every log each of the seven texts is the one last set for the key of its name and not removed since, and the state is that of the last set text or removal |
| `MessageTexts.TheNineTypes` | internal/domain/custom_message_text.go:9-18 | the names of the nine message types |
| `MessageTexts.CustomMessageTemplatesReadModel.AppendEvents` | internal/command/org_custom_message_model.go:74-94 | takes the events of the nine message types and no others |
| `MessageTexts.CustomMessageTemplatesReadModel.Reduce` | internal/command/custom_message_text_model.go:116-175 | the map is the fold of the events |
| `MessageTexts.EntryFoldsKey` | internal/command/custom_message_text_model.go:116-175 | on every log an entry has the texts, and is active, as folded from all events whose template and language spell its key; empty texts if there is none |
| `MessageTexts.EntryNamedByFirst` | internal/command/custom_message_text_model.go:116-175 | on every log there is an entry under a key exactly if an event since its last removal opened it, and it has the template and language of that event if that set a text, none otherwise |
| `MessageTexts.MapIsSingleModelsIff` | internal/command/custom_message_text_model.go:27-175 | over any vocabulary of templates and languages the map has on all logs, for each pair, the seven texts and the activity of the single model if and only if no two pairs spell one key |
| `MessageTexts.MessageKeysAreInjective` | internal/domain/custom_message_text.go:9-18 | no two pairs of one of the nine message types and a language spell one key |
| `MessageTexts.TemplatesAgree` | internal/command/org_custom_message_model.go:74-98 | so on every log the loaded map has, for each of the nine types and every language, what the single model has |
| `MessageTexts.MessageSet` | internal/command/instance_custom_message_text.go:32-93 | after the diff is pushed the texts are the requested ones, every other template and language loads as before, and the same request has an empty diff |
| `MessageTexts.DiffContents` | internal/command/instance_custom_message_text.go:42-91 | the diff sets exactly the texts that differ and are not empty, and removes exactly those that are to become empty |
| `MessageTexts.Commands.SetDefaultMessageTextEvents` | internal/command/instance_custom_message_text.go:32-93 | the error for an empty template or undetermined language, otherwise the diff against the loaded texts |
| `MessageTexts.Commands.SetDefaultMessageText` | internal/command/instance_custom_message_text.go:15-30 | on success the log loads to the requested texts and to what it did for all others; the one error is that of an invalid message |
| `MessageTexts.Commands.RemoveInstanceMessageTexts` | internal/command/instance_custom_message_text.go:95-116 | succeeds exactly on an active text, with either error otherwise, and leaves neither texts nor an entry in the map |
| `MessageTexts.LogNamesEntries` | internal/command/custom_message_text_model.go:116-148 | on every log in which message texts are removed only where there is one, whatever happens to other custom texts, each entry carries the template and language that spell its key, one of the nine types |
| `MessageTexts.DiffKeepsTextLog` | internal/command/instance_custom_message_text.go:42-91 | pushing a diff removes a text only where there is one, so the log stays such a log |
| `MessageTexts.AllMessageTextsRemoved` | internal/command/org_custom_message_text.go:122-136 | removing what the map lists leaves no text of the nine types in any language and every other custom text as it was |
| `MessageTexts.NothingLeftIffNamed` | internal/command/org_custom_message_text.go:122-136 | on every log whatsoever, the removals leave no message text if and only if each entry that shows a text or is active is named |
| `MessageTexts.Commands.PushOther` | internal/command/custom_login_text.go:1104-1117 | what other custom texts push, removals of empty login texts included, keeps the log such a log and does not reach the map |
| `MessageTexts.Commands.RemoveOrgMessageTextsIfExists` | internal/command/org_custom_message_text.go:122-136 | returns one removal for each entry of the loaded map, after which no message text is left and every other custom text is as it was |
| `IdentityProviders.IDPTypeWriteModel.Reduce` | internal/command/idp_model.go:1599-1714 | type, state and owner are the fold of the events |
| `IdentityProviders.IDPRemoveWriteModel.Reduce` | internal/command/idp_model.go:1551-1597 | the state is the fold of the events |
| `IdentityProviders.ProviderWriteModel.Reduce` | internal/command/idp_model.go:564-610 | settings and state are the fold of the events for the model of any of the ten types |
| `IdentityProviders.UpdateReduces` | internal/command/idp_model.go:1242-1280 | reducing the difference to the wanted settings leaves the wanted settings, with the new secret or else the one of before; it is empty exactly if nothing differs |
| `IdentityProviders.SettingsAreLatest` | internal/command/idp_model.go:207-348 | for each of the ten types and on every list of events, each setting of the model is the last one given by an event of the type or by an old configuration event it reads |
| `ProviderDispatch.DispatchAgrees` | internal/command/idp_model.go:1599-1849 | on every log with the id in one aggregate: while the type model is active its type is one of the ten, its owner is the aggregate's, and the model of that type is active |
| `ProviderDispatch.TypeIffNamedLast` | internal/command/idp_model.go:1599-1714 | for each of the ten types: the type model is active with it if and only if the last event that gave the type was an addition, or a migration of a provider not yet removed, and nothing since has given another type or removed it |
| `ProviderDispatch.ModelIffNamedAndKept` | internal/command/idp_model.go:1201-1240 | the model of a type without old events is active if and only if the type was given and no new event has removed the provider since |
| `ProviderDispatch.DispatchConverse` | internal/command/idp_model.go:564-610 | when the model of one of these eight types is active, the type model is active with that type if and only if since the type was last given nothing has removed the old configuration, added another provider or migrated elsewhere, and it was not given by migrating a removed provider |
| `ProviderDispatch.UngroundedMigration` | internal/command/idp_model.go:1699-1704 | a migration while the type model is inactive opens the target's model and leaves the type model inactive |
| `ProviderDispatch.DispatchConverseOfCommands` | internal/command/instance_idp.go:706-789 | on logs without old configurations of unknown type in which each migration found the OIDC model active, as its command demands, only what follows the last giving of the type decides |
| `ProviderDispatch.ConfigRemovalDisturbs` | internal/command/idp_model.go:1201-1215 | removing the old configuration of a provider leaves the model of a new type active and the type model removed |
| `ProviderDispatch.OldModelIffOpen` | internal/command/idp_model.go:207-233 | the OIDC or JWT model is active if and only if since the last removal it was added or any old configuration was, and for OIDC no migration followed |
| `ProviderDispatch.DispatchConverseOld` | internal/command/idp_model.go:399-421 | when the OIDC or the JWT model is active, the type model is active with that type if and only if it is the last type given since the last removal |
| `ProviderDispatch.ConfigOpensBoth` | internal/command/idp_model.go:484-488 | after a first old OIDC or JWT configuration the type is that one, and the models of both are active |
| `ProviderDispatch.StatesSinceRemoval` | internal/command/idp_model.go:1551-1714 | what the type and the removal model fold to, in terms of the additions since the last removal |
| `ProviderDispatch.RemovalAgrees` | internal/command/idp_model.go:1551-1714 | the two states are equal if and only if it is not so that only configurations of unknown type were added since the last removal |
| `ProviderDispatch.RemovalAgreesOnKnownConfigs` | internal/command/idp_model.go:1551-1714 | so they are equal on every log whose old configurations are OIDC or JWT |
| `ProviderDispatch.UnknownConfigDiffers` | internal/command/idp_model.go:1576-1579 | they differ after a first configuration of another type |
| `ProviderDispatch.SettingsSinceSet` | internal/command/idp_model.go:1201-1240 | an active Google, AzureAD or other provider without old configurations was set by one added or migrated event with nothing but changes after it, and its settings are that event's with those changes |
| `ProviderDispatch.LoadableIffExists` | internal/command/idp.go:113-176 | loading by id gives an active provider exactly if the id exists for its organization or instance and not only unknown configurations were added since its removal |
| `ProviderDispatch.LoadOutcome` | internal/command/idp.go:144-176 | what loading by id gives, in terms of the log: an error if nothing added, migrated or removed the id, another if no type was given since its removal, otherwise the model of the last type given, empty if the id was only migrated since |
| `ProviderDispatch.ExistsIfLastAdded` | internal/command/idp.go:113-142 | on every log an id exists exactly if its last addition or removal in the organization is an addition, and if there is none there, if that in the instance is one |
| `ProviderCommands.MigratedLoads` | internal/command/instance_idp.go:706-789 | right after a migration the id loads as the target type, with the migrated settings and nothing of before, or as an empty model if only configurations of unknown type had been added since the last removal |
| `ProviderCommands.Commands.NewAllIDPWriteModel` | internal/command/idp_model.go:1785-1849 | a model for each of the ten types, an error for the unspecified one only |
| `ProviderCommands.Commands.IDPProviderWriteModel` | internal/command/idp.go:144-176 | the two-stage load, with its two errors |
| `ProviderCommands.Commands.ExistsIDP` | internal/command/idp.go:113-142 | the organization's events decide if there are any, otherwise the instance's |
| `ProviderCommands.Commands.MigrateInstanceGenericOIDC` | internal/command/instance_idp.go:706-789 | succeeds exactly with the trimmed arguments present and an active OIDC model, with the error of the first that is missing; the id then loads as the target, in either of these two ways |
| `Strings.TrimSpaceKeepsCore` | internal/command/instance_domain.go:87-92 | trimming keeps one contiguous part and drops only space around it |

## Left out

- Interleavings of two commands between load and push: `Push` of the event store is not part of this model.
- Errors of the database, of the id generator and of encryption, and contexts and tracing.
- Resource owners, instance ids, sequences and change dates of the OIDC aggregates, and object details that commands return.
- `GetCurrentAuthRequest`, and the session fields `AccessTokenCreation` and `RefreshToken`, which no event sets.
- The two mint commands differ in whether they add a refresh token; `AddOIDCSession` covers both with an optional id.
- Login sessions, users and permissions beyond the parameters named above; a denied permission stands for any failure of the token check.
- Primary domains, console redirect URIs and the organisation side of instance domains; the commands push these besides the domain events, which no list model reads.
- The first lookup in `OrgDomains` and its siblings is a query; its result is the parameter.
- DomainPolicyOrgs.ChangeDefaultDomainPolicy: does not model how the current policy is loaded and how the username events of one organisation come about; both are parameters.
- `removeActionsFromOrg`, and an empty resource owner, which the query takes as no restriction. A negative quota, which the source does not survive, is outside the type.
- IdentityProviders.ProviderWriteModel.Reduce: does not model issuers, endpoints and the other settings particular to single provider types, which are copied field by field like the shared ones.
- `ToProvider`, the `NewChanges` of settings particular to single types, and the commands that add, change and remove providers; migration on an organization differs in error codes only.
- ProviderCommands.Commands.NewAllIDPWriteModel: does not model ten constructors; the ten classes are one with the type as a field, since the source uses them through one interface.
- `prepareSetInstanceCustomMessageTexts` repeats the diff of `setDefaultMessageText` for the setup of an instance.
- Custom login texts, flows, members, device authorization and IDP intents.
- Go maps are iterated in an order of the model's choosing; nothing proved depends on it.
