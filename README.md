# PresentPal gift registry front end, modelled in Dafny

PresentPal is a Next.js front end for organising events and their gift
registries. Users log in, create events and groups, invite members, add gifts
to registries (typed in, picked from a product catalogue, or scraped from an
Amazon or Flipkart product page), and discuss each event in a comment thread.
New comments reach the thread live over a socket.

This project models the logic of that front end. It leaves out the rendering
and the requests.

- **Comment thread** (`src/components/ui/chatui.tsx`) — the main part.
  - `CommentTree` builds the thread from the fetched list: a map filled with
    the first comment for each id, a walk that moves each comment into its
    parent's replies, and the roots that are left. It proves exactly where
    every comment ends up.
  - `CommentStream` folds a comment the server pushes into the forest shown.
  - `CommentPanel` is the component's state, with its handlers.
- **Pages and components** — each module is one source file.
  - Role tabs and list updates: `AllEvents`, `DashEvents`, `EventManager`,
    `EventRegistryCreator`, `Groups`, `Registries`.
  - Selection toggles: `MultiSelect`, and the shared `Ui` module.
  - Form validation and reset rules: `AddressForm`, `GiftRegistry`,
    `ProductCarousel`.
  - The product scraper endpoint: `Scraper`.
  - Login state and the dark-mode switch: `Session`, `Theme`.
- **JavaScript primitives** (`Js`): `Option`, `filter`, `find`, `trim`,
  integer `toString`, and local storage as a `map<string, string>`.
  - `parseInt`, `Number`, `JSON.parse`, `JSON.stringify`,
    `decodeURIComponent` and `matchMedia` are parameters. The partial ones
    return `Option`: None is NaN or a throw.

Some handlers change a state in place step by step: the comment panel, the
groups page, the registries page, the address form, the gift dialog, the
product page, the session provider and the theme switch. They are classes
whose methods state the complete new state. Pure `filter`/`map`/spread
updates are functions.

Each request, and each server push on the socket, is reduced to its outcome,
which is passed in as a parameter.

## Model

| member | source | states |
|---|---|---|
| CommentTree.FirstOccurrencesSound | src/components/ui/chatui.tsx:46-51 | every comment the first `forEach` puts in the map is an input comment that no earlier comment shares an id with |
| CommentTree.FirstOccurrencesComplete | src/components/ui/chatui.tsx:47-49 | every input comment whose id has not occurred before is kept |
| CommentTree.FirstOccurrencesDistinct | src/components/ui/chatui.tsx:47-49 | the map holds at most one comment per id |
| CommentTree.FirstOccurrencesInOrder | src/components/ui/chatui.tsx:46-51 | the kept comments are the input with some comments left out, in the input's own order; so every "input position" below, a position among the kept comments, orders them as the fetched list does |
| CommentTree.FillMap | src/components/ui/chatui.tsx:46-51 | after the first loop the map's keys are the input's ids in first-occurrence order, and each key holds its first comment with empty replies |
| CommentTree.NestReplies | src/components/ui/chatui.tsx:54-60 | the walk leaves the map in the state the per-step invariant describes for the whole list: moved comments deleted, each remaining node holding exactly the nodes pushed onto it |
| CommentTree.CollectRoots | src/components/ui/chatui.tsx:62 | `Array.from(values())` yields exactly the comments the walk did not move, in first-occurrence order, each well nested |
| CommentTree.BuildForest | src/components/ui/chatui.tsx:46-62 | the forest's roots are the unmoved first occurrences in input order, and every node holds exactly the replies moved into it |
| CommentTree.ExactlyOnce | src/components/ui/chatui.tsx:54-60 | every distinct comment occurs exactly once in the flattened forest, except one whose chain of parents ends at a self-parented comment, which occurs zero times; no other comment occurs |
| CommentTree.RootMembership | src/components/ui/chatui.tsx:55-58 | a first occurrence is a root exactly when the walk does not move it |
| CommentTree.OrphanIsRoot | src/components/ui/chatui.tsx:55 | a comment with a null or 0 parent, or a parent id not among the fetched ids, is a root and occurs once |
| CommentTree.SelfParentVanishes | src/components/ui/chatui.tsx:54-60 | a comment naming itself as its parent is not in the forest at all |
| CommentTree.NestingFollowsOrder | src/components/ui/chatui.tsx:54-60 | a reply whose parent comes later in the list is never a root; one whose parent comes earlier is a root exactly when that parent is not a root |
| CommentTree.RootsInInputOrder | src/components/ui/chatui.tsx:62 | roots appear in strictly increasing position among the first occurrences, which keep the input's order (`FirstOccurrencesInOrder`) |
| CommentTree.RepliesInInputOrder | src/components/ui/chatui.tsx:54-60 | each node's replies all name it as their parent and appear in strictly increasing position among the first occurrences, which keep the input's order |
| CommentStream.RootIndex | src/components/ui/chatui.tsx:79 | -1 exactly when no root has the id, otherwise the first root with it |
| CommentStream.FindRootIndex | src/components/ui/chatui.tsx:79 | the search loop returns the first root with the id, or -1 when there is none |
| CommentStream.RootIndexUnique | src/components/ui/chatui.tsx:79 | any index meeting the `findIndex` contract is the one `RootIndex` returns |
| CommentStream.AttachTo | src/components/ui/chatui.tsx:86-97 | the copy-and-push of the updater produces the same forest as the attach rule |
| CommentStream.HandleNewCommentAsWritten | src/components/ui/chatui.tsx:76-100 | the updater as written: a duplicate check over roots only, then attach |
| CommentStream.HandleNewComment | src/components/ui/chatui.tsx:76-100 | the updater with the duplicate check over every comment shown |
| CommentStream.RootDuplicateIgnored | src/components/ui/chatui.tsx:79-84 | an incoming comment with an existing root's id leaves the forest unchanged, in both updaters |
| CommentStream.ReplyAppended | src/components/ui/chatui.tsx:86-93 | a reply to a root is appended last to the first such root's replies; the number, order and content of the other roots stay |
| CommentStream.ReplyToNonRootDropped | src/components/ui/chatui.tsx:86-93 | a reply whose parent is not a root leaves the forest unchanged |
| CommentStream.TopLevelAppended | src/components/ui/chatui.tsx:94-97 | a comment without a truthy parent id becomes the last root with no replies, whatever its event id |
| CommentStream.RedeliveredReplyShownTwice | src/components/ui/chatui.tsx:79-93 | delivering the same reply twice makes it occur twice in the forest as written |
| CommentStream.AttachFlat | src/components/ui/chatui.tsx:86-97 | an attach inserts the comment once into the flattened forest and keeps everything else around it |
| CommentStream.MergeKeepsIdsUnique | src/components/ui/chatui.tsx:76-100 | with the corrected check, a forest without repeated ids keeps that property, and the new comment is shown unless nothing changed |
| CommentStream.MergeIdempotent | src/components/ui/chatui.tsx:76-100 | delivering a comment a second time to the corrected updater changes nothing |
| CommentPanel.EventComments.constructor | src/components/ui/chatui.tsx:30-33 | an empty forest, empty text, no reply target, not loading |
| CommentPanel.EventComments.FetchComments | src/components/ui/chatui.tsx:38-68 | a response replaces the forest with the built one, whose roots and nesting are as `BuildForest` proves; a failed request keeps the forest; text and reply target stay |
| CommentPanel.EventComments.ReceiveComment | src/components/ui/chatui.tsx:76-100 | the forest becomes the corrected merge of the old forest with the comment; nothing else changes |
| CommentPanel.EventComments.SetNewComment | src/components/ui/chatui.tsx:31 | only the typed text changes |
| CommentPanel.EventComments.SetReplyTo | src/components/ui/chatui.tsx:148 | only the reply target changes, to the clicked root |
| CommentPanel.EventComments.CancelReply | src/components/ui/chatui.tsx:177 | only the reply target changes, to none |
| CommentPanel.EventComments.SubmitComment | src/components/ui/chatui.tsx:113-128 | without a user id, non-blank text and a user name nothing is sent or cleared; otherwise the untrimmed text is sent with the reply target as parent, then text and target are cleared; the forest is never touched |
| CommentPanel.SubmitGuard | src/components/ui/chatui.tsx:114 | the text passes `trim()` exactly when it has a character that is not white space |
| MultiSelect.HandleSelect | src/components/ui/CustomeMultiSelect.tsx:25-31 | a present value is removed in every copy with the others kept; an absent one is appended last |
| MultiSelect.ToggleDropdown | src/components/ui/CustomeMultiSelect.tsx:21-23 | the open flag flips |
| MultiSelect.ToggleFlipsOnlyValue | src/components/ui/CustomeMultiSelect.tsx:25-31 | the toggled value's membership flips and no other value's changes |
| MultiSelect.RemovalKeepsOthers | src/components/ui/CustomeMultiSelect.tsx:26-27 | removal keeps the other values in order, with every copy |
| MultiSelect.SelectThenDeselect | src/components/ui/CustomeMultiSelect.tsx:25-31 | toggling an absent value twice gives back the original list |
| MultiSelect.DeselectThenSelect | src/components/ui/CustomeMultiSelect.tsx:25-31 | toggling a present value twice moves it to the end instead |
| Groups.SelectMember | src/app/groups/page.tsx:175-183 | a number not yet among the members is appended; NaN or a present number leaves the form; a list without duplicates stays without |
| Groups.DeleteGroup | src/app/groups/page.tsx:193 | exactly the groups with another id remain, in order |
| Groups.DeleteGroupCount | src/app/groups/page.tsx:193 | each group with another id keeps all its copies, one with the id none |
| Groups.UpdateGroup | src/app/groups/page.tsx:167 | each group with the returned group's id is replaced by it; every other position is unchanged |
| Groups.UpdateGroupIdempotent | src/app/groups/page.tsx:167 | applying the same update twice is applying it once |
| Groups.UpdateUnknownGroup | src/app/groups/page.tsx:167 | an update for an id no group has changes nothing |
| Groups.AddCreated | src/app/groups/page.tsx:133 | the created group goes last after the old list, or alone when the state was not an array |
| Groups.DeleteUndoesCreate | src/app/groups/page.tsx:133 | deleting a just-created group with a fresh id gives back the list before it |
| Groups.GroupPage.constructor | src/app/groups/page.tsx:36-41 | no user id, an empty form with owner 0, an empty group list, the dialog closed |
| Groups.GroupPage.ResolveUserId | src/app/groups/page.tsx:45-53 | a stored non-empty id wins and the storage stays; otherwise a truthy session id is adopted and written; otherwise nothing changes |
| Groups.GroupPage.FetchGroups | src/app/groups/page.tsx:62-96 | with a truthy user id an array `data.data` becomes the groups and any other value leaves them not an array; without one, or on a failed request, nothing changes; every other field stays |
| Groups.GroupPage.CreateGroup | src/app/groups/page.tsx:100-147 | with no user id it reports an error and changes nothing; on success it appends the group, closes the dialog and resets the form with the user as owner; on failure only the error is reported |
| Groups.GroupPage.SelectMemberValue | src/app/groups/page.tsx:175-183 | the form becomes `SelectMember` of the old form; nothing else changes |
| AllEvents.FilteredEvents | src/app/allevents/page.tsx:223-227 | 'your' shows exactly the ORGANIZER events, 'invited' exactly the MEMBER events, any other tab nothing; always in list order |
| AllEvents.TabsDisjoint | src/app/allevents/page.tsx:223-227 | no event is on both tabs |
| AllEvents.TabsCoverEvents | src/app/allevents/page.tsx:223-227 | when every role is one of the two, the two tabs together hold every event exactly as often as the list does |
| AllEvents.DeleteEvent | src/app/allevents/page.tsx:189 | exactly the events with another id remain, in order |
| AllEvents.DeleteEventCount | src/app/allevents/page.tsx:189 | each event with another id keeps all its copies, one with the id none |
| AllEvents.GroupColumn | src/app/allevents/page.tsx:350-354 | the name of the first group whose id is the event's shared group, or 'N/A' when none matches |
| AllEvents.AddRegistryRequest | src/app/allevents/page.tsx:197-209 | nothing is posted exactly when no event is selected; otherwise the registry is posted for the selected event |
| Ui.LoadedList | src/app/allevents/page.tsx:83-92 | an array payload is taken as it is; a non-array payload or a failed request gives the empty list |
| Ui.ExpandToggle | src/app/allevents/page.tsx:477 | the clicked registry is open afterwards exactly when it was not open before |
| Ui.ExpandToggleTwice | src/app/dashboard/dashevent.tsx:243 | two clicks on one registry leave it open only if it was open before |
| DashEvents.FilteredEvents | src/app/dashboard/dashevent.tsx:108-113 | 'created' shows exactly the organizer events, 'invited' exactly the invitee events, an unknown tab nothing; always a sublist of the events |
| DashEvents.AllTabIsEvents | src/app/dashboard/dashevent.tsx:109 | the 'all' tab shows the events unchanged |
| DashEvents.CreatedInvitedDisjoint | src/app/dashboard/dashevent.tsx:110-111 | no event is on both 'created' and 'invited' |
| DashEvents.Initial | src/app/dashboard/dashevent.tsx:39-43 | no events, the 'all' tab, no selected event, no expanded registry, loading |
| DashEvents.EventsLoaded | src/app/dashboard/dashevent.tsx:52-71 | an array payload becomes the events, anything else the empty list; loading ends; nothing else changes |
| DashEvents.EventClick | src/app/dashboard/dashevent.tsx:103-106 | the clicked event is selected and nothing else changes |
| DashEvents.CloseDialog | src/app/dashboard/dashevent.tsx:154 | no event is selected and nothing else changes |
| DashEvents.CloseUndoesClick | src/app/dashboard/dashevent.tsx:154 | opening an event and closing the dialog gives back the panel |
| DashEvents.RegistryClick | src/app/dashboard/dashevent.tsx:243 | the clicked registry is open exactly when it was not; nothing else changes |
| EventManager.AppendCreated | src/app/event/page.tsx:82-91 | the new event goes last with placeholder organizers and members `[0]`; the old events stay in front |
| EventManager.AfterCreate | src/app/event/page.tsx:55-99 | a failed create changes nothing; success appends the event and closes the popover, and the edit state stays |
| EventManager.SetCreateOpen | src/app/event/page.tsx:199-207 | only the popover's open flag changes, to the value given |
| EventManager.CreateThenDeleteRestores | src/app/event/page.tsx:55-142 | creating an event with a fresh id and deleting it gives back the page, with the popover closed |
| EventManager.DeleteEventAsWritten | src/app/event/page.tsx:136 | exactly the events whose `userId` differs from the id remain |
| EventManager.DeleteByUserIdRemovesOthers | src/app/event/page.tsx:136 | deleting event 1 of a user who also has event 2 removes both; deleting event 2 removes neither |
| EventManager.DeleteEvent | src/app/event/page.tsx:136 | exactly the events with another id remain, in order |
| EventManager.DeleteEventCount | src/app/event/page.tsx:136 | each event with another id keeps all its copies, one with the id none |
| EventManager.DeleteUndoesCreate | src/app/event/page.tsx:82-91 | deleting a just-created event with a fresh id gives back the list before it |
| EventManager.Overlay | src/app/event/page.tsx:164 | the spread as a definition, field by field: every key present in the patch overrides the event's field, absent keys keep it; what it means for an edit is `EditKeepsIdentity` |
| EventManager.ModifyEvent | src/app/event/page.tsx:164 | events with the id get the overlay, every other position is unchanged, and the length stays |
| EventManager.ModifyIdempotent | src/app/event/page.tsx:164 | a patch that keeps the id has the same effect applied twice as once |
| EventManager.EditPayload | src/app/event/page.tsx:181-184 | the patch holds the name and description and no other key |
| EventManager.EditKeepsIdentity | src/app/event/page.tsx:178-187 | an edit keeps every event's id, owner and participants, and sets the edited one's name and description |
| EventManager.AfterModify | src/app/event/page.tsx:148-172 | a failed response changes nothing; success patches the list and closes the edit form |
| EventManager.EditSubmit | src/app/event/page.tsx:178-187 | with no event being edited nothing happens; otherwise the edit payload is applied to its id |
| EventManager.AfterDelete | src/app/event/page.tsx:127-142 | a failed delete changes nothing; a successful one applies the corrected id filter `DeleteEvent` (see Findings); the code as written is `DeleteEventAsWritten` |
| EventRegistryCreator.GroupIdPayload | src/app/events/page.tsx:96 | 'none' maps to null; any other value to its parsed integer |
| EventRegistryCreator.CreateEventPost | src/app/events/page.tsx:94-98 | the form fields, the mapped group id and the session user id |
| EventRegistryCreator.RegistryName | src/app/events/page.tsx:122 | the event name followed by " Registry" |
| EventRegistryCreator.RegistryNameInjective | src/app/events/page.tsx:122 | different event names give different registry names |
| EventRegistryCreator.CreateRegistryPost | src/app/events/page.tsx:116-125 | the registry for the created event carries that name, the user and the event id |
| EventRegistryCreator.AfterCreateEvent | src/app/events/page.tsx:86-113 | a failed create changes nothing; success stores the event and closes the form, and the registry, gifts and gift dialog stay |
| EventRegistryCreator.AfterCreateRegistry | src/app/events/page.tsx:116-134 | a failed request changes nothing; success makes the created registry the page's, and everything else stays |
| EventRegistryCreator.CreatedRegistryEnablesGifts | src/app/events/page.tsx:116-155 | before a registry exists every gift add is refused and changes nothing; once one is created the form is posted for it and the created gift is appended |
| EventRegistryCreator.AddGiftRequest | src/app/events/page.tsx:137-149 | nothing is posted exactly when there is no registry; otherwise the form is posted for it |
| EventRegistryCreator.AfterAddGift | src/app/events/page.tsx:137-160 | without a registry, or on failure, nothing changes; on success the gift is appended, the dialog closes and the form empties |
| EventRegistryCreator.DeleteGift | src/app/events/page.tsx:169 | exactly the gifts with another id remain, in order |
| EventRegistryCreator.DeleteGiftCount | src/app/events/page.tsx:169 | each gift with another id keeps all its copies, one with the id none |
| EventRegistryCreator.DeleteUndoesAdd | src/app/events/page.tsx:153-169 | deleting a just-added gift with a fresh id gives back the list before it |
| Registries.GiftList.constructor | src/app/registries/page.tsx:26-27 | a gift array holding the given gifts |
| Registries.ReplaceById | src/app/registries/page.tsx:83-87 | registries with the updated one's id are replaced by it; every other position and every id is unchanged |
| Registries.ReplaceByIdMembership | src/app/registries/page.tsx:83-87 | the updated registry is in the new list exactly when it or some registry with its id was in the old one |
| Registries.RegistriesPage.constructor | src/app/registries/page.tsx:18-30 | empty forms, the details view, and the two built-in registries with separate gift arrays |
| Registries.RegistriesPage.RegistrySubmit | src/app/registries/page.tsx:32-65 | an incomplete form sets 'All fields are required' and sends nothing; a created registry is appended with its id, fields and a fresh empty gift array, and the details view is shown; a rejection shows the server message or the fallback; a throw shows its own text |
| Registries.RegistriesPage.GiftSubmit | src/app/registries/page.tsx:67-95 | an incomplete form sets the error and changes nothing else; otherwise the gift with id `now` is pushed onto the selected registry's own gift array in place, same-id registries are replaced by it, and the details view is shown |
| Registries.RegistriesPage.RegistryClick | src/app/registries/page.tsx:97-100 | the registry is selected and the details view shown; the forms, the list, the error and the loading flag stay |
| Registries.SharedGiftList | src/app/registries/page.tsx:79-80 | after a gift submit, the registry value that was selected, and is still the list's old first entry, holds the new gift too |
| AddressForm.NumberInput | src/components/ui/address.tsx:111 | the definition: the parsed integer, or 0 for NaN; its partner is `DisplayParsesBack` |
| AddressForm.DisplayPincode | src/components/ui/address.tsx:110 | the field is empty exactly for pincode 0 and otherwise shows the number |
| AddressForm.EmptyFieldRejected | src/components/ui/address.tsx:63-66 | an empty pincode field never passes the save check |
| AddressForm.DisplayParsesBack | src/components/ui/address.tsx:110-111 | parsing what the field shows gives back the stored pincode, when `parseInt` reads printed numbers back |
| AddressForm.SetField | src/components/ui/address.tsx:111 | the edited key gets the text, or for the pincode the parsed number or 0; every other key stays |
| AddressForm.NonNumericPincodeRejected | src/components/ui/address.tsx:63-66 | typing a non-number into the pincode leaves a pincode that save rejects |
| AddressForm.AddressPanel.constructor | src/components/ui/address.tsx:26-35 | an empty address with pincode 0 and no saved address |
| AddressForm.AddressPanel.Fetch | src/components/ui/address.tsx:41-61 | when `data.data` is present its first element becomes both the form and the saved address; otherwise both stay |
| AddressForm.AddressPanel.Edit | src/components/ui/address.tsx:111 | the form becomes `SetField` of the old form |
| AddressForm.AddressPanel.Save | src/components/ui/address.tsx:63-97 | a pincode that is not positive is reported and nothing is sent; otherwise the address is posted with the user id; success saves it and calls `onSave` once; failure reports 'Failed to create address' |
| Scraper.SiteOf | src/app/api/scraper/route.ts:31-105 | amazon.com if the URL contains it; else amazon.in; else flipkart.com; else none |
| Scraper.Currency | src/app/api/scraper/route.ts:33-87 | '$' exactly for amazon.com, '₹' exactly for the other two |
| Scraper.CleanPrice | src/app/api/scraper/route.ts:48 | only digits and '.' remain; every digit and '.' of the text remains, in order |
| Scraper.CleanPriceIdempotent | src/app/api/scraper/route.ts:48 | cleaning twice is cleaning once |
| Scraper.CleanPriceDropsSymbol | src/components/ui/gift-registry.tsx:96 | a currency symbol in front of a price is removed by cleaning |
| Scraper.PriceText | src/app/api/scraper/route.ts:48 | the cleaned text when it is non-empty, otherwise 'Price not found' |
| Scraper.NameText | src/app/api/scraper/route.ts:37 | the definition: the trimmed text when it is non-empty, otherwise 'Product name not found'; `ProductShape` uses it to show that every product has a name |
| Scraper.ImageText | src/app/api/scraper/route.ts:55 | the source when non-empty, otherwise 'Image not found' |
| Scraper.ErrorMessage | src/app/api/scraper/route.ts:115 | the error's message when non-empty, otherwise 'An unknown error occurred' |
| Scraper.ScanPrice | src/app/api/scraper/route.ts:46-51 | the price of the first selector that matches, or the placeholder when none does |
| Scraper.Scrape | src/app/api/scraper/route.ts:5-119 | the response is the one the URL and the page determine: 400 without a URL or for an unsupported one, 500 with the error's message, otherwise the product |
| Scraper.FirstSelectorWins | src/app/api/scraper/route.ts:46-51 | when selector k is the first that matches, its text supplies the price, whatever later selectors match |
| Scraper.MissingUrlRefused | src/app/api/scraper/route.ts:9-11 | without a URL, or with an empty one, the answer is 400 'URL is required' |
| Scraper.UnsupportedUrlRefused | src/app/api/scraper/route.ts:102-105 | a loaded URL naming none of the three shops gets 400 'Unsupported URL…' |
| Scraper.ProductShape | src/app/api/scraper/route.ts:26-112 | a product always has a name and an image, and a price that is the shop's symbol followed by the placeholder or by a non-empty run of digits and dots |
| Scraper.NoPriceFound | src/app/api/scraper/route.ts:27-109 | when no price selector matches, the price is the symbol followed by 'Price not found' |
| GiftRegistry.UrlGift | src/components/ui/gift-registry.tsx:83-98 | an error exactly when the name, price or image is missing or empty; otherwise the POST carries the name, the pasted URL, the cleaned price, the registry and the image |
| GiftRegistry.ScrapedProductAccepted | src/components/ui/gift-registry.tsx:83-96 | a scraper product with a name and image passes the check, and its price reaches `parseFloat` without the currency symbol |
| GiftRegistry.PlaceholderPriceIsEmpty | src/components/ui/gift-registry.tsx:96 | the 'Price not found' placeholder cleans to the empty string |
| GiftRegistry.UrlButtonDisabled | src/components/ui/gift-registry.tsx:299 | enabled exactly when not loading and the URL is non-empty |
| GiftRegistry.ManualButtonDisabled | src/components/ui/gift-registry.tsx:351 | enabled exactly when not loading and both name and price are non-empty |
| GiftRegistry.ManualButtonHandler | src/components/ui/gift-registry.tsx:350 | the edit handler exactly while editing |
| GiftRegistry.EditForm | src/components/ui/gift-registry.tsx:207-214 | the definition: the gift's id, name and printed price, with "" for a missing image or URL; its partner is `EditEnablesUpdate` |
| GiftRegistry.EditEnablesUpdate | src/components/ui/gift-registry.tsx:207-351 | editing a named gift enables the button once loading ends, and the button submits the edit |
| GiftRegistry.GiftDialog.constructor | src/components/ui/gift-registry.tsx:41-53 | not loading, neither adding nor editing, an empty URL, the empty form, URL mode |
| GiftRegistry.GiftDialog.SetUrlMode | src/components/ui/gift-registry.tsx:274-280 | only the mode changes |
| GiftRegistry.GiftDialog.HandleEdit | src/components/ui/gift-registry.tsx:207-217 | the form is filled from the gift, edit mode is on and manual mode is shown |
| GiftRegistry.GiftDialog.UrlSubmit | src/components/ui/gift-registry.tsx:71-121 | a failed scrape or incomplete data posts nothing and reports an error; complete data posts `UrlGift`; only success closes the dialog and clears the URL; loading ends; the form, edit mode and URL mode stay |
| GiftRegistry.GiftDialog.SubmitForm | src/components/ui/gift-registry.tsx:123-253 | the form is sent; success resets it to id 0 and empty fields and closes the dialog or leaves edit mode; failure changes only the loading flag |
| ProductCarousel.FindRegistry | src/components/ui/product-carousel.tsx:296 | a registry of the list whose printed id is the value, the first one; none exactly when no id prints as the value |
| ProductCarousel.FindRegistryById | src/components/ui/product-carousel.tsx:296-302 | choosing the value an id prints as selects a registry with that id exactly when the list has one |
| ProductCarousel.ProductPage.constructor | src/components/ui/product-carousel.tsx:41-47 | nothing selected, no URL, no category, dialog and details closed |
| ProductCarousel.ProductPage.OpenProductPage | src/components/ui/product-carousel.tsx:116-119 | the product is selected and shown in detail; the rest stays |
| ProductCarousel.ProductPage.CategoryChange | src/components/ui/product-carousel.tsx:121-125 | the category is set, and the product and its details are cleared |
| ProductCarousel.ProductPage.BackToProducts | src/components/ui/product-carousel.tsx:127-130 | the product and its details are cleared; the category stays |
| ProductCarousel.ProductPage.OpenDialog | src/components/ui/product-carousel.tsx:250 | the dialog opens and nothing else changes |
| ProductCarousel.ProductPage.SelectRegistry | src/components/ui/product-carousel.tsx:296 | the selection becomes `FindRegistry` of the value; every other field stays |
| ProductCarousel.ProductPage.SetGiftUrl | src/components/ui/product-carousel.tsx:308 | only the gift URL changes; every other field stays |
| ProductCarousel.ProductPage.AddGift | src/components/ui/product-carousel.tsx:72-114 | no registry is reported first, then no URL, each posting nothing; otherwise the product is posted with the URL and the registry's id; success closes the dialog; failure reports 'Failed to add gift' |
| ProductCarousel.ProductPage.AddClick | src/components/ui/product-carousel.tsx:324 | without a selected product nothing happens; otherwise what `AddGift` does for that product: no registry is reported first, then no URL, each posting nothing; otherwise the post, closing on success and 'Failed to add gift' on failure; the rest of the page stays |
| Session.Login | src/context/SessionContext.tsx:35-44 | the user is in the session with a working logout and is stored under 'userData'; every other key stays |
| Session.Logout | src/context/SessionContext.tsx:36-40 | the definition: the login's logout clears the user and removes 'userData', the initial no-op changes nothing; its partner is `LogoutSurvivesReload` |
| Session.Effect | src/context/SessionContext.tsx:46-62 | a non-empty URL parameter always gives a session; a session without a user keeps the storage; it crashes exactly when there is no parameter and the stored value is non-empty and does not parse |
| Session.StoredUserRestored | src/context/SessionContext.tsx:56-60 | with no parameter, a non-empty stored value that parses as a user logs that user in, whoever stored it |
| Session.UrlUserWins | src/context/SessionContext.tsx:47-51 | a parameter that decodes and parses logs that user in, whatever is stored |
| Session.BadUrlUserClears | src/context/SessionContext.tsx:52-55 | a parameter that fails gives a session with no user and leaves the storage |
| Session.NothingToRestore | src/context/SessionContext.tsx:56-61 | with no parameter and nothing stored, the state is unchanged |
| Session.LoginSurvivesReload | src/context/SessionContext.tsx:42-60 | when parsing reads back what was stored, a reload restores the same logged-in state |
| Session.LogoutSurvivesReload | src/context/SessionContext.tsx:36-61 | after logging out, a reload restores nobody |
| Session.SessionProvider.constructor | src/context/SessionContext.tsx:27-29 | no user and the no-op logout |
| Session.SessionProvider.HandleUserLogin | src/context/SessionContext.tsx:35-44 | the state becomes `Login` of the old state |
| Session.SessionProvider.CallLogout | src/context/SessionContext.tsx:36-40 | the state becomes `Logout` of the old state |
| Session.SessionProvider.RunEffect | src/context/SessionContext.tsx:46-62 | the new state is `Effect`'s; the crash flag is set exactly when `Effect` has none, and then nothing changes |
| Theme.Toggled | src/components/ui/toggletheme.tsx:7-17 | the class flips; the flag follows the new class; the theme stored matches it; every other key stays |
| Theme.ToggleTwice | src/components/ui/toggletheme.tsx:7-17 | two toggles give back the class, make the flag agree with it, and store the theme the page has |
| Theme.ToggleTwiceRestores | src/components/ui/toggletheme.tsx:7-17 | from a consistent state, two toggles restore class, flag and storage exactly |
| Theme.InitialDark | src/components/ui/toggletheme.tsx:21 | dark for a stored 'dark'; the OS preference when nothing is stored; light for any other stored value |
| Theme.Mounted | src/components/ui/toggletheme.tsx:19-24 | the flag and the class both take the initial decision; storage stays |
| Theme.ToggleSurvivesReload | src/components/ui/toggletheme.tsx:7-24 | the choice a toggle stores is what the next mount restores, whatever the OS prefers |
| Theme.ThemeToggle.constructor | src/components/ui/toggletheme.tsx:5 | the flag starts false, the page as it is |
| Theme.ThemeToggle.Toggle | src/components/ui/toggletheme.tsx:7-17 | the state becomes `Toggled` of the old state |
| Theme.ThemeToggle.Mount | src/components/ui/toggletheme.tsx:19-24 | the state becomes `Mounted` of the old state |

## Left out

- HTTP requests, toasts, console logging, router navigation and rendering: each request is reduced to its outcome, passed in.
- The socket connection and its subscribe/unsubscribe in `chatui.tsx`. A pushed comment is a call of `ReceiveComment`, and an emitted one is what `SubmitComment` returns.
- The browser behind the scraper (launch, goto, waitForSelector, `$eval`). A loaded page is a value that says which selectors match and what text and source they hold.
- Floating point: `parseFloat` of prices is not modelled. Prices reach a request as the text that would be parsed. A gift's `price.toString()` is the `priceText` parameter.
- `Date.now()` gift ids are the `now` parameter, and date formatting is not modelled.
- `parseInt`, `Number`, `JSON.parse`, `JSON.stringify`, `decodeURIComponent` and `matchMedia` are parameters, not models of those functions.
- The document's class list is reduced to whether it holds 'dark'.
- AddressForm.AddressPanel.Save: once a fetch has stored the undefined first element of an empty `data.data`, the page would throw reading its pincode. The model does nothing in that case.
- `Number.isInteger` on the pincode is not modelled: every value the field can hold is an integer here.
- GiftRegistry.GiftDialog.UrlSubmit: the error texts that add the server's response body are reduced to their fixed part, e.g. "Failed to fetch product details".
- GiftRegistry.GiftDialog.SubmitForm: the same reduction applies to its error texts.
- The gift list of `gift-registry.tsx` (fetchGifts, handleDelete, handleUpdate) is not modelled: each one just fetches the list again.
- `registries/page.tsx`'s catch that sets 'Failed to add the gift' is not modelled because nothing in its `try` can throw.
- The group update and delete updaters are modelled on arrays. On a non-array state they would throw.
- `allevents/page.tsx` keeps the expanded registry as page state and hands it, with its setter, to `EventDetails`. Only its toggle is modelled, as `Ui.ExpandToggle`; everything else done with it is rendering.
- `Partial<Event>` is limited to the six fields of the event record.
- CommentPanel.EventComments.ReceiveComment: the panel's forest takes the corrected merge `CommentStream.HandleNewComment`, not the root-only duplicate check the code runs; the code as written is `CommentStream.HandleNewCommentAsWritten` (see Findings).
- EventManager.AfterDelete: the page's list takes the corrected id filter `EventManager.DeleteEvent`, not the `userId` filter the code runs; the code as written is `EventManager.DeleteEventAsWritten` (see Findings).
- Session.Effect: parsing a stored user inside the effect throws outside any `try`. The model reports that as None: the effect stops and changes nothing.
- Related products and the product sub-pages of the catalogue, and the data fetches of `product-carousel.tsx`, are not modelled.

## Findings

| source | as written | input that shows it | evidently intended | confidence | as-written member | corrected member |
|---|---|---|---|---|---|---|
| src/components/ui/chatui.tsx:79-93 | the duplicate check of the live updater looks only at root comments, so a reply the server delivers again is appended to its root a second time | forest `[root 1]`, reply 2 to 1 delivered twice: root 1's replies become `[2, 2]` | a comment that already exists anywhere in the forest leaves it unchanged, as the code comment "already exists" says | not executed | CommentStream.RedeliveredReplyShownTwice | CommentStream.MergeKeepsIdsUnique |
| src/app/event/page.tsx:136 | after deleting event `eventId`, the list keeps the events whose `userId` differs from that id | user 1 owns events 1 and 2; deleting event 1 removes both, deleting event 2 removes neither | keep the events whose `id` differs from the deleted event's id | not executed | EventManager.DeleteByUserIdRemovesOthers | EventManager.DeleteEvent |
