# networkingGPT invite flow and contact views in Dafny

networkingGPT is a personal-network manager: a user keeps a list of contacts, each linked to the
contact who brought them in, and grows the network through invite links. This project models and
proves properties of two parts of it.

- The serverless request handlers behind the invite links. `invite-lookup` tells an invite page
  whether its token can still be used. `invite-inviter` records who sent the link. `invite-submit`
  and `invite-submit-new` add the invited person as a contact; the newer handler may also create a
  follow-up invite in the same chain and mail it. `invite-create` makes a new link. The two mail
  handlers `send-invite` and `send-invite-smtp` validate a request, drop duplicates seen within a
  minute, and retry the mail service with exponential backoff.
- The client-side views of the contact list. `ContactList` has the search filter, the list after a
  delete, and the hierarchy degree computed by walking parent links with a cycle guard.
  `NetworkFlow` lays the contact tree out under a synthetic "admin" root and draws one edge per
  contact. `AIAssistant` is a second search box. `StatsBar` shows the counts and the average
  closeness. `ContactForm` validates and stores a new contact.

The database tables are the fields of a class (`InviteStore.Tables`) that the handlers update in
place. The duplicate-request map is a class (`Idempotency.RecentRequests`). The layout's mutable
state (positions, next free row) is a class (`NetworkFlow.Layout`). Loops in the source
(`getDegree`, the retry loop, the cleanup sweep, the `forEach` builders, the min-finding pass)
are methods with loop invariants. Each is proved against a recursive function whose own
properties are lemmas. Everything else is pure functions over datatypes.

The model follows the code where the system's documented behaviour says otherwise:

- A limit of 0 means "unlimited" for `invite-create` and the chain checks. The older
  `invite-submit` still refuses every use of such an invite (`InviteSubmit.CreatedUnlimitedInviteRefused`).
- `invite-inviter` refuses an inviter whose e-mail is not among the owner's contacts; it never
  creates one.
- The transient-error test looks for the character '5' anywhere in the message, not for a 5xx
  status. `send-invite` also retries on "network", which `send-invite-smtp` does not.
- The follow-up mail of `invite-submit-new` is never sent (see Findings). `InviteSubmitNew.SubmitNew`
  models the handler as written: it stores the follow-up invite and sends no mail.
  `InviteSubmitNew.SubmitNewIntended` is the same handler with the mail helper called.

Nothing here is executed. The clock, the generated tokens and ids, the database's answers and the
mail service's answers are parameters.

## Model

| member | source | states |
|---|---|---|
| Contacts.DegreeColor | src/components/network/ContactList.tsx:24-28 | green exactly for degree 8 and up, yellow exactly for 5 to 7, red exactly below 5 |
| Contacts.DegreeColorMonotone | src/components/network/ContactList.tsx:24-28 | a higher degree never gets a farther colour |
| Http.ErrorMessage | supabase/functions/invite-lookup/index.ts:74 | `e?.message \|\| fallback`: a non-empty message is kept, otherwise the fallback; never empty unless the fallback is |
| Seqs.Filter | src/components/network/ContactList.tsx:223 | every kept element is from the input and passes; every passing input element is kept; never longer than the input |
| Seqs.FilterIsSublist | src/components/network/ContactList.tsx:204-211 | filtering keeps the input order (the result is a sublist) |
| Seqs.FilterSplitsLength | src/components/network/ContactList.tsx:223 | the kept and the dropped elements together number as many as the input |
| Seqs.FilterStronger | src/components/network/AIAssistant.tsx:15-25 | filtering by a stronger predicate keeps a sublist of what a weaker one keeps |
| Text.Trim | src/components/network/StatsBar.tsx:31 | `trim` leaves no white space at either end |
| Text.TrimStart | src/components/network/StatsBar.tsx:31 | removes exactly the leading white space: a suffix of the input, all space before it, not starting with space |
| Text.TrimEnd | src/components/network/StatsBar.tsx:31 | removes exactly the trailing white space: a prefix of the input, all space after it, not ending with space |
| Text.TrimEmptyIffBlank | src/components/network/ContactList.tsx:199 | `trim` gives "" exactly for a blank string |
| Text.TrimOfTrimmed | supabase/functions/invite-inviter/index.ts:110-111 | a string without white space at its ends is left alone |
| Text.Lower | src/components/network/ContactList.tsx:205 | same length, each character mapped by the ASCII case mapping |
| Text.LowerIdempotent | src/components/network/AIAssistant.tsx:13 | lower-casing twice is lower-casing once |
| Text.LowerTrimCommute | supabase/functions/invite-inviter/index.ts:38 | trimming and lower-casing commute |
| Text.Normalize | supabase/functions/invite-inviter/index.ts:38 | `trim().toLowerCase()` is trimmed and no longer than its input |
| Text.NormalizeIdempotent | supabase/functions/invite-inviter/index.ts:38 | normalising twice is normalising once |
| Text.ContainsAt | src/components/network/ContactList.tsx:205 | `includes` holds exactly when the pattern occurs at some index |
| Text.ContainsLonger | src/components/network/AIAssistant.tsx:24 | a pattern longer than the text never occurs in it |
| Text.NoChar | supabase/functions/send-invite/index.ts:27-31 | a pattern with a character the text lacks does not occur in it |
| Text.ContainsConcat | src/components/network/AIAssistant.tsx:16-24 | an occurrence in either part is an occurrence in the concatenation |
| Text.ContainsAcrossSeparator | src/components/network/AIAssistant.tsx:16-24 | a pattern without the separator that occurs in `a + sep + b` occurs in `a` or in `b` |
| Text.LowerJoin | src/components/network/AIAssistant.tsx:22-23 | lower-casing a joined string is joining the lower-cased parts |
| Text.ContainsInJoin | src/components/network/AIAssistant.tsx:16-24 | a non-empty pattern without the separator occurs in the join exactly when it occurs in some part |
| Text.Split | supabase/functions/invite-submit/index.ts:78 | `split` gives at least one piece and no piece holds the separator |
| Text.JoinSplit | supabase/functions/invite-submit/index.ts:78 | joining the pieces of a split restores the string |
| Text.SplitJoin | supabase/functions/invite-submit/index.ts:78 | splitting a join of separator-free pieces gives the pieces back |
| Text.NonEmptyTrimmed | supabase/functions/invite-submit/index.ts:79-80 | `.map(trim).filter(Boolean)` keeps only non-empty trimmed pieces, never more than given |
| Text.CommaList | supabase/functions/invite-submit/index.ts:77-80 | every piece of a comma list is non-empty, trimmed and comma-free |
| Text.CommaListOfJoin | src/components/network/ContactForm.tsx:45-46 | clean items joined with commas come back unchanged from the comma list |
| Text.DropTrailingSlash | supabase/functions/invite-submit/index.ts:117 | `replace(/\/$/, "")` removes one trailing slash and otherwise changes nothing |
| Text.EmailPatternShape | supabase/functions/send-invite/index.ts:134 | the e-mail pattern matches exactly a string with no white space and exactly one '@' with something before it, and a '.' after the '@' that is neither right after it nor the last character |
| Text.ContainsIgnoringCaseLower | supabase/functions/invite-submit-new/index.ts:179 | a case-insensitive literal match is a match of the lower-cased pattern in the lower-cased text |
| Text.FoundInLowered | supabase/functions/invite-submit-new/index.ts:179 | a lower-case pattern found in the lower-cased text matches case-insensitively |
| StatsBar.DistinctKeys | src/components/network/StatsBar.tsx:31-32 | a set of distinct keys never has more members than there are values |
| StatsBar.DistinctKeysMembers | src/components/network/StatsBar.tsx:31-32 | a key is counted exactly when it is non-empty and is the key of some present value |
| StatsBar.DistinctValues | src/components/network/StatsBar.tsx:31-32 | the distinct normalised values never outnumber the rows |
| StatsBar.DistinctValuesMembers | src/components/network/StatsBar.tsx:31-32 | a string is counted exactly when it is the non-blank trimmed, lower-cased form of some present value |
| StatsBar.BlankValuesIgnored | src/components/network/StatsBar.tsx:31-32 | an absent or blank value adds nothing to the count |
| StatsBar.SpellingsCountOnce | src/components/network/StatsBar.tsx:31-32 | two spellings with the same normal form count once |
| StatsBar.Cities | src/components/network/StatsBar.tsx:31 | one entry per row, in order, holding that row's city |
| StatsBar.Professions | src/components/network/StatsBar.tsx:32 | one entry per row, in order, holding that row's profession |
| StatsBar.AverageOf | src/components/network/StatsBar.tsx:33 | the literal "0.0" exactly when there are no rows |
| StatsBar.DegreeSumBounds | src/components/network/StatsBar.tsx:33 | degrees on the 0 to 10 scale (a missing one as 0) sum to between 0 and 10 per row |
| StatsBar.AverageOnScale | src/components/network/StatsBar.tsx:33 | degrees on the 0 to 10 scale keep the average on that scale |
| StatsBar.StatsOf | src/components/network/StatsBar.tsx:30-33 | the total is the number of rows, neither distinct count exceeds it, and no rows shows zeros and "0.0" |
| ContactList.SearchContacts | src/components/network/ContactList.tsx:198-213 | a blank box shows everyone; otherwise exactly the matching contacts, in list order |
| ContactList.SearchFindsName | src/components/network/ContactList.tsx:204-205 | typing a name in lower case finds the contact |
| ContactList.SearchKeepsTrailingSpace | src/components/network/ContactList.tsx:199-211 | the term is trimmed only for the blank test, so a trailing space takes part in the match |
| ContactList.AfterDelete | src/components/network/ContactList.tsx:218-227 | a failed delete changes nothing; a successful one removes exactly the entries with that id, keeping the order of the rest |
| ContactList.ById | src/components/network/ContactList.tsx:230-231 | every contact in the id map is stored under its own id |
| ContactList.ByIdHasEveryId | src/components/network/ContactList.tsx:231 | every listed id is a key of the id map |
| ContactList.ByIdOnlyListed | src/components/network/ContactList.tsx:231 | the id map holds only listed contacts and no more entries than the list |
| ContactList.ByIdLastWins | src/components/network/ContactList.tsx:231 | the contact stored under an id is the last one listed with it |
| ContactList.Climb | src/components/network/ContactList.tsx:238-243 | the walk follows at most as many links as there are unvisited contacts |
| ContactList.Degree | src/components/network/ContactList.tsx:233-246 | a degree is between 1 and one more than the number of contacts |
| ContactList.ClimbIgnoresUnreached | src/components/network/ContactList.tsx:238-243 | marking a contact the walk never reaches as visited does not change the walk |
| ContactList.RootDegree | src/components/network/ContactList.tsx:237-238 | a contact without a parent link has degree 1 |
| ContactList.MissingParentDegree | src/components/network/ContactList.tsx:242 | a contact whose parent is not listed has degree 2 |
| ContactList.DegreeStep | src/components/network/ContactList.tsx:238-242 | following a parent link adds one when the parent's walk does not return to the contact |
| ContactList.MutualParentsDegree | src/components/network/ContactList.tsx:239 | two contacts that are each other's parent get degree 3, the bound: the cycle guard stops the walk |
| ContactList.ClimbStep | src/components/network/ContactList.tsx:238-242 | one step of the walk adds one and shrinks the unvisited set |
| ContactList.CacheExtends | src/components/network/ContactList.tsx:244 | memoising a computed degree keeps every memoised degree correct |
| ContactList.GetDegree | src/components/network/ContactList.tsx:233-246 | returns the contact's degree and memoises it, from a memo that was correct and stays correct |
| ContactList.WalkDegree | src/components/network/ContactList.tsx:235-243 | the loop with its visited set computes the degree |
| ContactList.BuildById | src/components/network/ContactList.tsx:230-231 | the `forEach` builds the id map |
| ContactList.DegreesOf | src/components/network/ContactList.tsx:247-251 | every listed contact gets an entry, and each entry is that contact's degree |
| ContactList.DegreeMap | src/components/network/ContactList.tsx:229-252 | every listed contact gets its degree, between 1 and one more than the number of contacts |
| ContactList.CardDegree | src/components/network/ContactList.tsx:261 | a card shows the contact's entry, or 1 when it has none |
| AIAssistant.AssistantSearch | src/components/network/AIAssistant.tsx:12-26 | a blank query shows everyone; otherwise exactly the contacts whose haystack holds the trimmed, lower-cased query, in order |
| AIAssistant.MatchesSomeField | src/components/network/AIAssistant.tsx:16-24 | a one-line query matches exactly when it occurs in the lower-cased first name, last name, city or a service |
| AIAssistant.AssistantMatchImpliesListMatch | src/components/network/AIAssistant.tsx:16-24 | whatever the assistant matches, the contact list's filter matches too |
| AIAssistant.AssistantWithinList | src/components/network/AIAssistant.tsx:12-26 | for a normalised one-line query the assistant finds a sublist of what the contact list finds |
| ContactForm.Problems | src/components/network/ContactForm.tsx:12-22 | each schema problem is reported exactly when its rule fails |
| ContactForm.DefaultsNeedOnlyNames | src/components/network/ContactForm.tsx:33-35 | the default values fail only on the two names |
| ContactForm.ListField | src/components/network/ContactForm.tsx:45-46 | services and tags are non-empty, trimmed and comma-free, and empty when the field is undefined |
| ContactForm.StoredEmail | src/components/network/ContactForm.tsx:59 | an undefined or empty e-mail is stored as null, any other as typed |
| ContactForm.ToRecordStable | src/components/network/ContactForm.tsx:45-61 | writing the stored lists back comma-joined and saving again gives the same row |
| ContactForm.Submit | src/components/network/ContactForm.tsx:38-72 | no session inserts nothing; a failed insert keeps the values; a save inserts the row and resets the form to degree 5 |
| NetworkFlow.KidsOfFileUnder | src/components/network/NetworkFlow.tsx:46-49 | filing one contact appends its id to its parent's list and to no other |
| NetworkFlow.ChildrenListsInOrder | src/components/network/NetworkFlow.tsx:43-50 | each key lists exactly the contacts filed under it, in input order |
| NetworkFlow.ChildrenKeys | src/components/network/NetworkFlow.tsx:43-50 | the children map has an entry for "admin" and for every contact |
| NetworkFlow.ListedKid | src/components/network/NetworkFlow.tsx:45-50 | a listed kid is a contact filed under that key |
| NetworkFlow.ChildrenForest | src/components/network/NetworkFlow.tsx:43-50 | with distinct ids, none "admin", the children map is a forest under "admin" |
| NetworkFlow.AdminContactListsItself | src/components/network/NetworkFlow.tsx:44-50 | a parentless contact with id "admin" is listed under "admin" itself: the ids are not well keyed and the map is no forest |
| NetworkFlow.RepeatedIdListsItself | src/components/network/NetworkFlow.tsx:44-50 | a repeated id filed under itself is listed under "admin" and under itself: the ids are not well keyed and the map is no forest |
| NetworkFlow.BuildChildren | src/components/network/NetworkFlow.tsx:43-50 | the `forEach` builds the children map |
| NetworkFlow.PathBound | src/components/network/NetworkFlow.tsx:57-69 | a path from "admin" has no more nodes than the map has keys |
| NetworkFlow.PathExtend | src/components/network/NetworkFlow.tsx:65 | in a forest a kid is never already on the path to its parent |
| NetworkFlow.SumBounds | src/components/network/NetworkFlow.tsx:66 | a sum of values within a band is within n times the band |
| NetworkFlow.MeanBounds | src/components/network/NetworkFlow.tsx:66 | the mean of the children's y lies within their rows |
| NetworkFlow.Place | src/components/network/NetworkFlow.tsx:57-69 | a subtree uses at least one row; a leaf takes the next row; the node sits at its depth and within its subtree's rows |
| NetworkFlow.PlaceAll | src/components/network/NetworkFlow.tsx:65 | one y per kid, each within the rows the kids used, one row per kid at least |
| NetworkFlow.PlaceInBand | src/components/network/NetworkFlow.tsx:57-69 | every placed id is reachable from "admin" and lies at its depth or deeper, within its subtree's rows |
| NetworkFlow.PlaceAllInBand | src/components/network/NetworkFlow.tsx:65 | the same for a list of sibling subtrees |
| NetworkFlow.Layout.constructor | src/components/network/NetworkFlow.tsx:54-55 | starts with no positions and row 0 |
| NetworkFlow.Layout.Assign | src/components/network/NetworkFlow.tsx:57-69 | `assign` returns the node's y and leaves the positions and next row that `Place` describes |
| NetworkFlow.Layout.AssignKids | src/components/network/NetworkFlow.tsx:65 | `kids.map(assign)` leaves what `PlaceAll` describes |
| NetworkFlow.DetachedUnreachable | src/components/network/NetworkFlow.tsx:71 | ids closed under parents that exclude "admin" are never reached |
| NetworkFlow.MutualParentsUnreached | src/components/network/NetworkFlow.tsx:71 | two contacts that are each other's parent are never placed |
| NetworkFlow.MutualParentsClosed | src/components/network/NetworkFlow.tsx:45-50 | such a pair is listed only under each other |
| NetworkFlow.PlaceContacts | src/components/network/NetworkFlow.tsx:43-71 | `assign("admin", 0)` places "admin" at x = 0 and only reachable ids, all at non-negative coordinates |
| NetworkFlow.Offsets | src/components/network/NetworkFlow.tsx:74-77 | after the shift no placed coordinate is below 50 and the smallest x and y are 50; 50 each when nothing was placed |
| NetworkFlow.ContactNodes | src/components/network/NetworkFlow.tsx:87-119 | one node per contact, in order, at its shifted position or the shifted fallback (220, 0) |
| NetworkFlow.FlowNodes | src/components/network/NetworkFlow.tsx:41-122 | admin first at x = 50, then one node per contact in order; every x at least 50; an unreached contact at x = 270 |
| NetworkFlow.NodesPlacement | src/components/network/NetworkFlow.tsx:79-121 | placed contacts are drawn within the margin, unplaced ones at the shifted fallback |
| NetworkFlow.Edges | src/components/network/NetworkFlow.tsx:124-128 | one edge per contact, in input order |
| NetworkFlow.EdgeFollowsTree | src/components/network/NetworkFlow.tsx:124-127 | an edge is animated exactly when it is green, and it joins a contact to the key it is filed under |
| InviteStore.ChainOf | supabase/functions/invite-lookup/index.ts:43 | the chain relation exists exactly when the invite names a chain row that exists |
| InviteStore.ToArray | supabase/functions/invite-submit/index.ts:74-80 | an array is kept, null gives no items, text gives non-empty trimmed comma-free pieces |
| InviteStore.ToArrayMissingIsEmptyText | supabase/functions/invite-submit/index.ts:77 | a missing field reads like the empty string |
| InviteStore.ToArrayOfJoined | supabase/functions/invite-submit-new/index.ts:128-134 | clean items sent as one comma-joined string arrive as the same list |
| InviteStore.Coalesce | supabase/functions/invite-submit/index.ts:90 | `??` keeps any present value, including "", and falls through only on an absent one |
| InviteStore.InviteLinkIgnoresTrailingSlash | supabase/functions/invite-submit/index.ts:117 | a base URL with or without one trailing slash gives the same link |
| InviteStore.FindContact | supabase/functions/invite-create/index.ts:36-40 | finds a stored contact with that id, and finds none exactly when no row has it |
| InviteLookup.Remaining | supabase/functions/invite-lookup/index.ts:58-61 | no count for an unlimited chain, otherwise the chain's counter |
| InviteLookup.Lookup | supabase/functions/invite-lookup/index.ts:24-78 | 400 without a token; "not found" for an unknown token or a missing chain row (inner join); otherwise validity, exhaustion, remaining uses and parent |
| InviteLookup.LookupUsable | supabase/functions/invite-lookup/index.ts:57-61 | an invite is reported usable exactly when both rows are active and the chain is unlimited or has uses left, and then the count is absent or positive |
| InviteLookup.UnlimitedNeverExhausted | supabase/functions/invite-lookup/index.ts:58-61 | an active unlimited chain never makes an active invite exhausted, whatever its counter says |
| InviteLookup.LookupIsLocal | supabase/functions/invite-lookup/index.ts:33-46 | the reply depends only on the token's own rows |
| InviteCreate.MaxUsesOf | supabase/functions/invite-create/index.ts:51 | a non-negative limit is kept; a missing or negative one becomes 0 |
| InviteCreate.MaxUsesOfStable | supabase/functions/invite-create/index.ts:51 | normalising a normalised limit changes nothing |
| InviteCreate.NewInvite | supabase/functions/invite-create/index.ts:53-60 | the new row has the token, the default status and the limit |
| InviteCreate.CreateInvite | supabase/functions/invite-create/index.ts:25-74 | 400 without a known inviter, 500 on a failed insert, otherwise the token and limit returned and exactly one row added; chains and contacts unchanged |
| InviteCreate.CreatedInviteHasNoChain | supabase/functions/invite-create/index.ts:53-60 | a created invite has no chain, so the lookup reports it not found and the inviter step refuses it as used up |
| InviteInviter.TrimOrNull | supabase/functions/invite-inviter/index.ts:110-111 | a name is stored trimmed and non-empty, or null exactly when absent or blank |
| InviteInviter.FirstMatch | supabase/functions/invite-inviter/index.ts:89-104 | the first of the owner's contacts whose e-mail matches, or none exactly when none matches |
| InviteInviter.ResolveInviter | supabase/functions/invite-inviter/index.ts:28-135 | 422 without the fields, 404 for an unknown token, 422 for an exhausted invite; otherwise a stored inviter id always resolves to itself, and without one the owner's first e-mail match resolves, or 422 "not in your network" when none matches; the id is returned as parent too; the row is written exactly when the call resolves and either the id was looked up or no inviter e-mail was stored |
| InviteInviter.ExhaustedAgreesWithLookup | supabase/functions/invite-inviter/index.ts:75-84 | with its chain present, an invite is refused as used up exactly when the lookup reports it exhausted |
| InviteInviter.RecordedEmailNormal | supabase/functions/invite-inviter/index.ts:112 | the recorded e-mail is already in normal form |
| InviteInviter.ResolveInviterIdempotent | supabase/functions/invite-inviter/index.ts:86-130 | resolving again on the updated tables gives the same reply and no new change |
| InviteInviter.ResolveInviterIn | supabase/functions/invite-inviter/index.ts:28-141 | answers as `ResolveInviter` and writes its update back by token; chains and contacts unchanged |
| InviteSubmit.Redeem | supabase/functions/invite-submit/index.ts:108-112 | the use counter grows by one (null read as 0) and nothing else changes |
| InviteSubmit.RedeemTimesCounts | supabase/functions/invite-submit/index.ts:110 | after k counted submits the counter has grown by k and nothing else has changed |
| InviteSubmit.AdmitsExactlyMaxUses | supabase/functions/invite-submit/index.ts:66-71 | an unused invite with limit m accepts exactly m submits |
| InviteSubmit.CreatedUnlimitedInviteRefused | supabase/functions/invite-submit/index.ts:66 | an invite created with limit 0 ("no limit") is refused by this handler |
| InviteSubmit.NewContact | supabase/functions/invite-submit/index.ts:88-101 | the new contact's parent is the form's parent, else the invite's (`??`); a missing degree is 0; given names are stored as sent; services and tags go through `toArray` |
| InviteSubmit.Submit | supabase/functions/invite-submit/index.ts:42-144 | 400 for missing fields, an unknown or used-up invite; 500 on a failed insert; otherwise one contact added for the owner, the counter counted when the update succeeds, and the welcome mail queued when asked for and addressed |
| InviteSubmitNew.Precheck | supabase/functions/invite-submit-new/index.ts:89-125 | passes exactly for a JSON request with token, both names and a numeric degree; 415, 400, then 422 in the handler's order |
| InviteSubmitNew.RpcErrorReply | supabase/functions/invite-submit-new/index.ts:174-184 | the message or the stand-in, with 422 exactly when it names a business rule and 500 otherwise |
| InviteSubmitNew.NotBusinessError | supabase/functions/invite-submit-new/index.ts:179 | a message lacking the letters every alternative needs names no business rule |
| InviteSubmitNew.DefaultMessageNotBusiness | supabase/functions/invite-submit-new/index.ts:175-179 | the stand-in message names no business rule |
| InviteSubmitNew.SilentFailureIsServerError | supabase/functions/invite-submit-new/index.ts:174-183 | a procedure failure without a message is a 500 with the stand-in message |
| InviteSubmitNew.ChainMessagesAreBusiness | supabase/functions/invite-submit-new/index.ts:179-181 | a message naming the chain or a limit, in any letter case, is a 422 |
| InviteSubmitNew.FirstRow | supabase/functions/invite-submit-new/index.ts:187 | the first row exactly when the data is a non-empty array |
| InviteSubmitNew.InviterFullName | supabase/functions/invite-submit-new/index.ts:256-259 | never empty; both names joined by a space; the stand-in name when neither is set |
| InviteSubmitNew.FollowUpInvite | supabase/functions/invite-submit-new/index.ts:246-252 | the follow-up invite has the same owner and chain, the new contact as inviter, and limit 0 |
| InviteSubmitNew.Call | supabase/functions/invite-submit-new/index.ts:264-268 | calling the mail helper sends the mail; calling the body's flag sends nothing |
| InviteSubmitNew.FollowUpWith | supabase/functions/invite-submit-new/index.ts:237-268 | the follow-up invite is stored exactly when the chain row is present, the chain allows it and the insert succeeds; a mail goes out only after it is stored and only through the mail helper |
| InviteSubmitNew.FollowUpAsWrittenNeverMails | supabase/functions/invite-submit-new/index.ts:264 | as written, the follow-up step stores the same row as intended but never mails |
| InviteSubmitNew.FollowUpAsWrittenExample | supabase/functions/invite-submit-new/index.ts:264 | an unlimited chain with a successful insert: a row is stored and no mail is sent |
| InviteSubmitNew.FollowUpMailsItsInvite | supabase/functions/invite-submit-new/index.ts:261-264 | with the mail helper, a mail goes out exactly when a follow-up invite is stored, to the new contact, linking that invite's token |
| InviteSubmitNew.FollowUpSharesChain | supabase/functions/invite-submit-new/index.ts:246-252 | a follow-up link reports the chain's counter and is exhausted exactly when the chain is inactive or out of uses |
| InviteSubmitNew.Reply | supabase/functions/invite-submit-new/index.ts:88-194 | the precheck reply, the classified procedure error, 500 for an unexpected answer, or the new contact's id with the chain state; accepted exactly when the precheck passes and the procedure returns a row with a contact id |
| InviteSubmitNew.FollowUpRow | supabase/functions/invite-submit-new/index.ts:244-252 | the stored follow-up invite carries the generated token, the new contact as inviter and the chain of the redeemed invite |
| InviteSubmitNew.FollowUpMail | supabase/functions/invite-submit-new/index.ts:256-268 | the follow-up mail goes to the new contact's address with the link to the follow-up token |
| InviteSubmitNew.Respond | supabase/functions/invite-submit-new/index.ts:88-286 | for either meaning of the name `sendEmail`: the reply is `Reply`; the follow-up invite is stored exactly when `FollowUpStored` holds; a mail goes out exactly then and only through the mail helper; contacts and chains unchanged |
| InviteSubmitNew.SubmitNew | supabase/functions/invite-submit-new/index.ts:88-286 | as written: the reply is `Reply`; the follow-up invite is stored exactly when `FollowUpStored` holds; no mail is ever sent, because `sendEmail` names the body's flag; contacts and chains unchanged |
| InviteSubmitNew.SubmitNewIntended | supabase/functions/invite-submit-new/index.ts:264-268 | with the mail helper called: the same reply and stored row, and the follow-up mail goes out exactly when the invite is stored |
| Retry.RetryFromShape | supabase/functions/send-invite/index.ts:15-43 | at most the remaining attempts; every failure before the last call was transient and is followed by its wait; the last call decides the result |
| Retry.RetryBounded | supabase/functions/send-invite/index.ts:15-43 | with a positive bound, 1 to maxRetries calls, one wait fewer than calls, success exactly when the last call succeeded; with no positive bound, no call at all |
| Retry.PermanentErrorStops | supabase/functions/send-invite/index.ts:33-35 | an error that does not look transient ends the loop at the first call |
| Retry.TotalWait | supabase/functions/send-invite/index.ts:37-40 | waits of 1 s, 2 s, 4 s, ... add up to (2^n - 1) s |
| Retry.DefaultWaitAtMostThreeSeconds | supabase/functions/send-invite/index.ts:15-40 | with the default bound of 3 the waits add up to 3 s at most |
| Retry.ClientErrorWithFiveRetried | supabase/functions/send-invite/index.ts:27 | a 405 error message holds the character 5, so it is retried |
| Retry.RetryWithBackoff | supabase/functions/send-invite/index.ts:15-43 | the loop computes the run `RetryFrom` describes |
| Idempotency.Fresh | supabase/functions/send-invite/index.ts:49-56 | the sweep keeps exactly the entries no more than a window old, with their stamps |
| Idempotency.AdmitSpec | supabase/functions/send-invite/index.ts:146-164 | after a request the map is the swept map, with the key stamped now when the request was let through |
| Idempotency.DuplicateIff | supabase/functions/send-invite/index.ts:148-152 | a request is a duplicate exactly when its key was stamped less than a window before, and reports that stamp |
| Idempotency.RepeatWithinWindowIsDuplicate | supabase/functions/send-invite/index.ts:164 | once let through, the same key is a duplicate for the rest of the window, whatever the send did |
| Idempotency.RepeatAfterWindowAdmitted | supabase/functions/send-invite/index.ts:47-56 | a full window later the same key is let through again |
| Idempotency.OtherKeysOnlySwept | supabase/functions/send-invite/index.ts:49-56 | a request never stamps or revives other keys |
| Idempotency.RecentRequests.constructor | supabase/functions/send-invite/index.ts:46 | the map starts empty |
| Idempotency.RecentRequests.Cleanup | supabase/functions/send-invite/index.ts:49-56 | the sweep loop leaves exactly `Fresh` of the old map |
| Idempotency.RecentRequests.Admit | supabase/functions/send-invite/index.ts:146-164 | the guard answers and updates the map as `AdmitSpec` |
| EmailGuard.ReplyOf | supabase/functions/send-invite/index.ts:167-195 | a delivered message is a 200 with its id; anything else is a 500 |
| EmailGuard.Dispatch | supabase/functions/send-invite/index.ts:146-179 | a duplicate is answered with its stamp and nothing is sent; otherwise the mail is sent with three attempts and the reply follows the run |
| EmailGuard.DispatchNeverWithoutAttempt | supabase/functions/send-invite/index.ts:167-174 | with the default bound at least one call is made, and the reply is a success exactly when the last call succeeded |
| SendInvite.Validate | supabase/functions/send-invite/index.ts:123-143 | passes exactly when to, subject and html are set and the address matches the pattern; otherwise a 400 |
| SendInvite.Handle | supabase/functions/send-invite/index.ts:103-196 | preflight, 405 for any verb but POST, 500 for a malformed body, 400 for invalid fields; otherwise the guard on `to:subject`; preflight, 405, a malformed body and 400 leave the map alone and send nothing |
| SendInviteSmtp.Subject | supabase/functions/send-invite-smtp/index.ts:324 | the subject names the project, or "Ağ GPT" when it has none |
| SendInviteSmtp.EmptyProjectIsDefault | supabase/functions/send-invite-smtp/index.ts:324 | an empty project name reads as none |
| SendInviteSmtp.Validate | supabase/functions/send-invite-smtp/index.ts:264-297 | passes exactly when to and inviteUrl are set, the address matches and the URL parses; otherwise a 400 |
| SendInviteSmtp.Handle | supabase/functions/send-invite-smtp/index.ts:244-354 | as send-invite, keyed by `to:inviteUrl`, with the project subject |
| SendInviteSmtp.NetworkErrorMarkersDiffer | supabase/functions/send-invite-smtp/index.ts:186-189 | a "network" error is retried by send-invite but not by send-invite-smtp |

## Left out

- Unicode case mapping: `toLowerCase` and the `/i` flag are modelled for ASCII letters only. Turkish letters and other non-ASCII letters keep their case.
- `.ilike` is read as case-insensitive equality. Its `%` and `_` wildcards are not modelled.
- `.limit(1)` and `.maybeSingle()` are read as "the first row in table order".
- invite-inviter filters contacts by `owner_user_id`, while the other handlers write `user_id`. The model has one owner field.
- Database errors that a handler rethrows into its catch-all 500 are not modelled. The only modelled database failures are the ones a handler treats specially: the failed inserts, the counter update that is only logged, the follow-up insert, and the delete.
- Exceptions thrown by the database client itself are not modelled, so the outer `catch` of invite-submit-new is unreachable in the model.
- The effects of the `accept_invite_and_add_contact` procedure are not modelled. Its body is not part of the repository. `InviteSubmitNew.Respond` receives the tables as the procedure left them, and the procedure's answer as a parameter.
- HTML templates, the SendGrid and Resend calls and their own fallbacks are not modelled. A mail is recorded as handed over (recipient, subject, link).
- Clocks, timers, the search debounce and the backoff sleeps are not modelled. The clock is a parameter and the waits are returned as a list.
- Both handlers read `Date.now()` twice, once for the request and once inside the sweep. The model uses one reading for both.
- The idempotency map is modelled for one function instance. Concurrent requests are not modelled, and neither is the non-atomic counter update of invite-submit.
- Numbers are integers. Fractional degrees, NaN, `Infinity` and `toFixed(1)` formatting are not modelled. The StatsBar average is the exact real quotient.
- The `new URL` parser of send-invite-smtp is not modelled. `isUrl` is a parameter.
- The zod `email()` validator of ContactForm is not modelled. `isEmail` is a parameter.
- `classifyDistanceToIstanbul`, tooltips, dialogs and the rest of the JSX are not modelled. They only decorate the nodes.
- The realtime subscriptions that reload the contact list are not modelled.
- Generated tokens and ids are parameters. Their uniqueness (no UUID collision) is not modelled.
- A `services` or `tags` value that is neither an array, a string nor null is not modelled.
- Database defaults other than the invite `status` are not modelled. An optional column the insert leaves out reads as null.
- InviteSubmit.NewContact: a missing `first_name` or `last_name` is stored as "". The handler checks only that `contact` is present and passes `undefined` on to the insert, which then stores null or is refused, depending on a column constraint that is not part of the repository. The model keeps the names as strings, as the contact type in `types.ts` declares them.
- send-invite-email and invite-send-info-email are not part of this model.
- InviteLookup.Lookup: the `typeof token !== "string"` test is not modelled. The token is an optional string, so a non-string token cannot be expressed.
- NetworkFlow.PlaceContacts: requires distinct contact ids, none of them "admin". The source has no such requirement. With a repeated id, or an id "admin", its recursive `assign` can revisit a node forever (see Findings).
- NetworkFlow.FlowNodes: the same requirement, for the same reason.
- Retry.RetryWithBackoff: requires an answer for every attempt (at least `maxRetries` outcomes), because the send is modelled as a list of answers.
- EmailGuard.Dispatch: the same requirement, for the same reason.
- SendInvite.Handle: the same requirement, for the same reason.
- SendInviteSmtp.Handle: the same requirement, for the same reason.

## Findings

| source | as written | input that shows it | evidently intended | confidence | as-written member | corrected member |
|---|---|---|---|---|---|---|
| supabase/functions/invite-submit-new/index.ts:264 | the follow-up call goes to `sendEmail`, which line 105 destructures from the request body as a boolean. That name shadows the mail helper at line 59, so the call throws a TypeError, and the `catch` at 273 only logs it. The follow-up invite is stored but never mailed. | a request with `sendEmail: true`, a contact e-mail, and an active unlimited chain | the module's mail helper sends the new contact the link to the follow-up invite | high; not executed | InviteSubmitNew.FollowUpAsWrittenNeverMails | InviteSubmitNew.FollowUpMailsItsInvite |
| src/components/network/NetworkFlow.tsx:45-50 | each contact is filed under its parent, or under "admin" when it has none, with no check that its id is new or differs from "admin". A parentless contact with id "admin", or a repeated id filed under itself, lists a node among its own children, so the recursive `assign` at lines 57-69 never returns. | a contact `{id: "admin", parent_contact_id: null}`, or two contacts with id `x`, one parentless and one with parent `x` | every contact is placed once, in a tree under "admin" | low (ids are database UUIDs, so the app's own data does not produce these inputs); not executed | NetworkFlow.AdminContactListsItself | NetworkFlow.ChildrenForest |
