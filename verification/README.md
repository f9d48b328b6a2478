# PslibUrlShortener — a Dafny model of its link rules

PslibUrlShortener is an ASP.NET Core URL shortener. A link maps a short code,
optionally under a domain, to a target URL. A link has an owner (the
subject of an external identity), an optional activity window, and a
soft-delete mark. Visits are recorded as hits. A background task purges
links that have been soft-deleted for long enough.

This project models the rules of that system as pure functions over an
immutable store.

**The store.** `Store.Db` holds:
- the links, keyed by id;
- the identity seed;
- the hits;
- the reserved codes;
- the owners, keyed by subject.

It carries the constraints the database enforces:
- `(Domain, Code)` is unique among links that are not soft-deleted, and a null domain counts as equal to a null domain;
- removing a link cascades to its hits;
- reserved codes are unique;
- every column has a width bound.

**Services and pages.** Every service call and page handler is a function
returning a `Transition`: what the call produced and the store after it.
Exceptions are values (`Wrappers.Call`). A database save is an abstract
success flag, combined with the store's own constraints on the new state.

**What cannot be seen is a parameter.** This covers:
- random draws;
- the URL parser;
- the clock;
- the order a database query returns;
- the service methods whose bodies are not part of this model: `ResolveForRedirectAsync`, `RegisterHitAndTouchAsync`, `LooksLikeBot`, `SoftDeleteAsync`, `RestoreAsync`, and the three-argument `GenerateShortUrl`.

**Modules.** There is one module per component:
- `Model`, `Store`: the entities and the persisted state.
- `LinkManager`, `OwnerManager`: the two services.
- `Redirect`: the redirect endpoint of `Program.cs`.
- `SelfCreate`, `SelfEdit`, `LinkList`, `LinkDetails`: the self-service pages.
- `AdminLinkCreate`, `AdminLinkEdit`, `AdminLinkDelete`, `AdminLinkList`, `AdminLinkDetails`, `AdminIndex`, `AdminQuickCreate`, `OwnerList`: the administration pages.
- `Purge`: the retention task.
- `Pagination`: the pager tag helper.
- `QrCode`: the QR helpers.
- `Listing`: the paging and filtering shared by the list pages.
- `Wrappers`, `Text`, `Numbers`, `Annotations`: .NET and data-annotation behaviour the model relies on.

## Model

| member | source | states |
|---|---|---|
| Model.NewLink | PslibUrlShortener/Model/Link.cs:15-56 | A new link is enabled, has zero clicks, is live, and has no window, last access, domain, title, note or row version. It fits its columns exactly when its code is at most 16 characters, its target at most 2048 and its owner subject at most 128. |
| Store.PutKeepsLiveUnique | PslibUrlShortener/Data/ApplicationDbContext.cs:20-23 | Writing a link keeps the filtered `(Domain, Code)` index unique, provided no other live link holds the new link's slot, or the new link is itself soft-deleted. |
| Store.GlobalCodeCheckKeepsLiveUnique | PslibUrlShortener/Services/LinkManager.cs:31-35 | The service's global pre-check keeps the filtered index unique. That check asks only that no other row, in any domain and deleted or not, has the code. |
| Store.LiveCodeCheckKeepsLiveUnique | PslibUrlShortener/Areas/Links/Pages/Create.cshtml.cs:75-81 | The self-service check keeps the filtered index unique when inserting a new row. That check looks only at live rows, in any domain. |
| Store.SoftDeletedAreExempt | PslibUrlShortener/Data/ApplicationDbContext.cs:20-23 | A soft-deleted link may share its slot with a live one. |
| Store.TwoLiveInOneSlotRejected | PslibUrlShortener/Data/ApplicationDbContext.cs:20-23 | Two live links in one slot violate the index, also when both domains are null. |
| Store.HitsOutside | PslibUrlShortener/Data/ApplicationDbContext.cs:29-34 | The surviving hits are exactly those whose link is not removed, and nothing else. |
| Store.RemoveLinks | PslibUrlShortener/Data/ApplicationDbContext.cs:29-34 | A hard delete removes exactly the given links and, by the cascade, their hits. The seed, the reserved codes and the owners are kept. |
| Store.RemoveLinksKeepsValid | PslibUrlShortener/Data/ApplicationDbContext.cs:29-34 | Deleting links leaves a valid store valid, and no remaining hit refers to a removed link. |
| Store.AddLink | PslibUrlShortener/Services/LinkManager.cs:37-39 | An insert stores the link under the next identity value and advances the seed. |
| Store.PutKeepsOtherConstraints | PslibUrlShortener/Data/ApplicationDbContext.cs:15-46 | Once the index stays unique, the database accepts a written row exactly when the row fits its columns. |
| LinkManager.CodeAlphabet | PslibUrlShortener/Services/LinkManager.cs:124-135 | The random-code alphabet has 62 symbols, all ASCII letters or digits. |
| LinkManager.CodeOf | PslibUrlShortener/Services/LinkManager.cs:124-135 | Six draws give a 6-character code whose i-th character is the alphabet entry the i-th draw selects. |
| LinkManager.GenerateRandomCode | PslibUrlShortener/Services/LinkManager.cs:124-135 | The result is the first drawn code that no stored link uses, and it has six alphabet characters. All earlier draws collided. There is no result exactly when every draw collided. |
| LinkManager.GenerateUniqueCode | PslibUrlShortener/Services/LinkManager.cs:144-152 | The re-check never rejects, so the result is the random code, which is unused. |
| LinkManager.GenerateShortUrl | PslibUrlShortener/Services/LinkManager.cs:137-142 | Throws `ArgumentException` exactly on a null or blank base. Otherwise the result is the base with its trailing slashes stripped, followed by "/" and the code. |
| LinkManager.GetById | PslibUrlShortener/Services/LinkManager.cs:73-81 | Finds exactly the stored ids, soft-deleted ones included. |
| LinkManager.CreateAsync | PslibUrlShortener/Services/LinkManager.cs:18-49 | Throws exactly when an explicit code is already used by any link, in any domain, deleted or not, and then nothing changes. A blank code is replaced by the generated one. On success exactly that link is added under the next id. A failed save returns null with the store unchanged. Validity is kept. |
| LinkManager.CreateFailsOnlyOnSave | PslibUrlShortener/Services/LinkManager.cs:31-48 | Past the duplicate check a create succeeds exactly when the save does and the row fits its columns. The unique index never rejects it. |
| LinkManager.UpdateAsync | PslibUrlShortener/Services/LinkManager.cs:85-122 | Throws exactly when the id is not stored, or when another link holds an explicit code. Keeping one's own code is allowed. A blank code becomes the generated one. On success the entity replaces the stored row. A failed save returns null with the store unchanged. |
| LinkManager.UpdateAsyncTracking | PslibUrlShortener/Services/LinkManager.cs:93-113 | When the context already tracks another instance with the entity's id, the pre-checks throw as before. Otherwise `Update` throws `InvalidOperationException` before any save, and the store is unchanged. Without such an instance it is `UpdateAsync`. |
| LinkManager.UpdateFailsOnlyOnSave | PslibUrlShortener/Services/LinkManager.cs:98-121 | Past the pre-checks an update succeeds exactly when the save does and the row fits its columns. |
| LinkManager.DeleteAsync | PslibUrlShortener/Services/LinkManager.cs:51-71 | Returns true exactly when the save succeeds on a stored link. The link is then gone, and so are its hits, while every other hit stays. Otherwise false with the store unchanged. |
| Redirect.MatchRoute | PslibUrlShortener/Program.cs:139 | Among codes made of ASCII characters, the scan accepts exactly those of 1 to 64 characters from `[A-Za-z0-9_-]`. It tolerates one final line feed, which .NET's `$` allows (see Left out for case-insensitive matching). |
| Redirect.GeneratedCodesAreRoutable | PslibUrlShortener/Program.cs:139 | Every code the link service generates matches the redirect route. |
| Redirect.RouteRejectsSeparators | PslibUrlShortener/Program.cs:139 | A code holding '/', '?', '#', '.', '%' or a space never matches the route. |
| Redirect.AppendQuery | PslibUrlShortener/Program.cs:166-173 | The target is always a prefix of the result. A null, empty or bare "?" query leaves the target unchanged. If the target has a '?', the result is the target, '&', and the query without its leading '?'s. Otherwise the query is appended verbatim. |
| Redirect.AppendQueryKeepsQueryTail | PslibUrlShortener/Program.cs:166-173 | The carried query survives in full, except for its leading '?'s. |
| Redirect.HandleRedirect | PslibUrlShortener/Program.cs:141-162 | A resolver exception escapes with no hit registered. 404 with no hit exactly when the resolver finds nothing. Otherwise exactly one hit is registered, with the bot flag from the user agent. A 302 to `AppendQuery(target, query)` follows only when the registration returns; its exception escapes instead. |
| Redirect.Dispatch | PslibUrlShortener/Program.cs:139-162 | The handler runs exactly for codes that match the route, and then behaves exactly as the handler body: it registers at most one hit and answers 404 exactly when the resolver finds no link. A redirect means the link resolved and its hit was registered without an exception, and it leads to that link's target with the query carried over. An escaping exception comes from the resolver or the registration. |
| SelfCreate.SafeAlphabet | PslibUrlShortener/Areas/Links/Pages/Create.cshtml.cs:134 | The 36-symbol alphabet consists of safe characters, a–z then 0–9. |
| SelfCreate.GenerateCode | PslibUrlShortener/Areas/Links/Pages/Create.cshtml.cs:132-142 | n bytes give n characters, the i-th being `alphabet[b_i mod 36]`. Every generated code passes `IsCodeSafe`. |
| SelfCreate.EverySafeCodeIsGenerated | PslibUrlShortener/Areas/Links/Pages/Create.cshtml.cs:126-142 | The converse: every safe code is produced by some bytes of its length. |
| SelfCreate.TryNormalizeUrl | PslibUrlShortener/Areas/Links/Pages/Create.cshtml.cs:117-124 | A null input throws `NullReferenceException`. A parse failure or a scheme other than http/https gives no URL. Otherwise the parsed string form is returned. |
| SelfCreate.Entity | PslibUrlShortener/Areas/Links/Pages/Create.cshtml.cs:85-101 | The new link takes the next id, the given code and URL, the caller as owner, the posted flags, texts and window, the time of the request and the new token. It has no domain, no clicks, no last access and no deletion mark. |
| SelfCreate.FirstFailure | PslibUrlShortener/Areas/Links/Pages/Create.cshtml.cs:48-108 | The checks run in order: URL, subject, charset, reserved, live collision, window. The result is the first failing check, every earlier check passes, and there is no result exactly when all pass. |
| SelfCreate.OnPostAsWritten | PslibUrlShortener/Areas/Links/Pages/Create.cshtml.cs:46-115 | The handler as written. A null target throws `NullReferenceException`. A failing check returns that check's outcome with the store unchanged. When all checks pass, exactly one live link owned by the caller is added, with the chosen code and the normalised target URL; otherwise the save throws `DbUpdateException`. |
| SelfCreate.Passed | PslibUrlShortener/Areas/Links/Pages/Create.cshtml.cs:48-108 | When no check fails, the URL normalises, the subject is present and not blank, the chosen code is safe, not reserved and not held by a live link, and the window is not reversed. |
| SelfCreate.SaveCreated | PslibUrlShortener/Areas/Links/Pages/Create.cshtml.cs:110-111 | The insert of a new row whose code no live link holds either stores exactly that row, only when the save goes through, or throws `DbUpdateException` with nothing stored. The store stays valid. |
| SelfCreate.SaveCreatedStores | PslibUrlShortener/Areas/Links/Pages/Create.cshtml.cs:110-111 | That insert stores the row exactly when the save goes through and the row fits its columns. |
| SelfCreate.SelfCreateFailsOnlyOnSave | PslibUrlShortener/Areas/Links/Pages/Create.cshtml.cs:68-111 | Past all six checks the insert succeeds exactly when the save does and the row fits its columns. |
| SelfCreate.LongCustomCodeThrows | PslibUrlShortener/Areas/Links/Pages/Create.cshtml.cs:25-26 | A 17-character safe custom code is invalid by `[StringLength(16)]`, yet it passes the chain, and the save throws. |
| SelfCreate.NullTargetThrows | PslibUrlShortener/Areas/Links/Pages/Create.cshtml.cs:48 | A form with an empty target is invalid. The handler as written throws `NullReferenceException`; the corrected one shows the form. |
| SelfCreate.OnPost | PslibUrlShortener/Areas/Links/Pages/Create.cshtml.cs:22-115 | The corrected handler shows an invalid form again with no change. Otherwise it behaves as written, and then it can only throw a save failure on a code that fits its column. |
| SelfEdit.MapToInput | PslibUrlShortener/Areas/Links/Pages/Edit.cshtml.cs:129-143 | The form round-trips the link's editable fields, and it has a token exactly when the link has one. |
| SelfEdit.OnGet | PslibUrlShortener/Areas/Links/Pages/Edit.cshtml.cs:37-52 | The owner is ensured first. The form is shown exactly when the caller owns the link; a missing or foreign link is "not found". No link changes. |
| SelfEdit.Edited | PslibUrlShortener/Areas/Links/Pages/Edit.cshtml.cs:80-91 | Only the code (trimmed), target, title, note, window, enabled flag and token change. A blank title or note becomes null. Owner, domain, creation time and statistics are kept. |
| SelfEdit.OnPost | PslibUrlShortener/Areas/Links/Pages/Edit.cshtml.cs:54-127 | The form is shown again exactly when the model is invalid or the window is strictly reversed; equal bounds pass. A foreign or missing link is never saved. A save writes only the allowed fields of the stored link, and no link changes otherwise. |
| SelfEdit.TokenOf | PslibUrlShortener/Areas/Links/Pages/Edit.cshtml.cs:81-82 | A null or blank posted token keeps the stored token. Otherwise the token is replaced exactly when the posted text decodes, by its decoded value; a text that does not decode is a `FormatException`. |
| SelfEdit.SaveAsOwner | PslibUrlShortener/Areas/Links/Pages/Edit.cshtml.cs:71-103 | After the owner is ensured: "not found" exactly when the caller does not own the link. A save writes the trimmed code, target, blank-to-null title and note, window, enabled flag and new version into the stored row and changes nothing else. Any other outcome leaves the store unchanged. |
| SelfEdit.SaveAsOwnerSaves | PslibUrlShortener/Areas/Links/Pages/Edit.cshtml.cs:71-103 | The converse for the owner: a usable token and a trimmed code no other link holds are saved when the save goes through. |
| SelfEdit.SavedWhenAccepted | PslibUrlShortener/Areas/Links/Pages/Edit.cshtml.cs:54-103 | The owner's valid form, with a window that is not reversed, a blank or decodable token and a free code, is saved. |
| SelfEdit.ForeignLinkLooksMissing | PslibUrlShortener/Areas/Links/Pages/Edit.cshtml.cs:37-78 | For a caller who does not own the id, both the form and the post answer exactly as for an id no link has. |
| SelfEdit.SavedEditShown | PslibUrlShortener/Areas/Links/Pages/Edit.cshtml.cs:85-91 | After a save, the owner's next form shows the posted fields: the code trimmed, a blank title or note as null, and the new version's token. |
| OwnerManager.FromClaims | PslibUrlShortener/Services/OwnerManager.cs:166-171 | The display name is the name claim or "(unknown)". The e-mail is the e-mail claim or null. |
| OwnerManager.PutOwner | PslibUrlShortener/Services/OwnerManager.cs:39-41 | The write is kept exactly when the save succeeds and the owner fits its columns. |
| OwnerManager.EnsureOwner | PslibUrlShortener/Services/OwnerManager.cs:31-45 | Throws without a NameIdentifier claim, or when the insert fails. Otherwise it returns that subject. An existing owner is untouched, and an absent one is inserted once from the claims. Links and hits never change. |
| OwnerManager.EnsureOwnerIdempotent | PslibUrlShortener/Services/OwnerManager.cs:36-37 | A second ensure after a successful one changes nothing and returns the same subject. |
| OwnerManager.Refreshed | PslibUrlShortener/Services/OwnerManager.cs:68-73 | A name or e-mail claim replaces the stored value only when it is not blank and differs. The other fields are kept. |
| OwnerManager.RefreshIsIdempotent | PslibUrlShortener/Services/OwnerManager.cs:71-80 | Refreshing an already refreshed profile changes nothing, so the second upsert issues no save. |
| OwnerManager.UpsertFromClaims | PslibUrlShortener/Services/OwnerManager.cs:51-83 | Throws without the claim. An absent owner is inserted from the claims. With refresh off an existing owner is returned as stored. With refresh on it is saved only when something changed. |
| OwnerManager.Create | PslibUrlShortener/Services/OwnerManager.cs:90-111 | Null throws `ArgumentNullException`, a blank subject `ArgumentException`, a duplicate `InvalidOperationException`, each with the store unchanged. A failed save returns null. Otherwise the owner is added. |
| OwnerManager.Update | PslibUrlShortener/Services/OwnerManager.cs:113-134 | Null throws `ArgumentNullException`. A blank or unknown subject throws `ArgumentException`. Otherwise the stored owner is replaced, or null is returned on a failed save. |
| OwnerManager.UpdateThenRestore | PslibUrlShortener/Services/OwnerManager.cs:113-134 | A successful update is what the subject's lookup then finds. Every other owner and every link and hit is kept, and updating back with the replaced owner restores the store. |
| OwnerManager.Delete | PslibUrlShortener/Services/OwnerManager.cs:136-151 | Null throws. The result is true exactly when the save succeeds on a stored owner. The owner is then removed, and the foreign-key cascade removes exactly its links (deleted or not) and their hits; other links and hits stay. Otherwise false with no change. |
| OwnerManager.CreateThenDeleteRestores | PslibUrlShortener/Services/OwnerManager.cs:90-151 | Creating a new owner that no link refers to, and deleting it again, restores the whole store: the cascade removes nothing. |
| AdminLinkCreate.OnPost | PslibUrlShortener/Areas/Admin/Pages/Links/Create.cshtml.cs:37-93 | An invalid model is shown again with nothing attempted. A missing NameIdentifier, a duplicate code or a failed save never creates anything. A created link is owned by the caller. Its blank domain, title and note are null, and a blank code is replaced by the generated one. It is added under the next id. |
| AdminLinkCreate.CreatedWhenAccepted | PslibUrlShortener/Areas/Admin/Pages/Links/Create.cshtml.cs:47-73 | A valid form from a signed-in caller with a free or blank code is created whenever the save succeeds. |
| AdminLinkEdit.ReplacementFor | PslibUrlShortener/Areas/Admin/Pages/Links/Edit.cshtml.cs:71-85 | The new entity keeps the original owner and creation time, and takes the posted token. Blank texts become null, and a blank code becomes empty. Clicks, last access and deletion take the defaults. |
| AdminLinkEdit.OnPostAsWritten | PslibUrlShortener/Areas/Admin/Pages/Links/Edit.cshtml.cs:57-118 | The handler as written. An invalid model shows the errors, a missing original gives not found, and every other request fails with the store unchanged: `Update` conflicts with the original tracked by `FindAsync`. |
| AdminLinkEdit.ValidEditNeverSaved | PslibUrlShortener/Areas/Admin/Pages/Links/Edit.cshtml.cs:66-114 | A valid edit of a stored link with a free code fails as written, while the corrected handler saves it. |
| AdminLinkEdit.OnPost | PslibUrlShortener/Areas/Admin/Pages/Links/Edit.cshtml.cs:57-118 | The corrected handler, with the original read without tracking. An invalid model, or a missing original, means no update. A code held by another link is never saved. A save replaces the stored row with the entity built from the form. |
| AdminLinkEdit.SaveResetsStatistics | PslibUrlShortener/Areas/Admin/Pages/Links/Edit.cshtml.cs:71-87 | In the corrected handler the row is replaced rather than merged, so a saved edit clears the clicks, the last access and any soft-delete mark. |
| AdminLinkEdit.SavedWhenAccepted | PslibUrlShortener/Areas/Admin/Pages/Links/Edit.cshtml.cs:59-97 | In the corrected handler a valid form for a stored id with a free code is saved whenever the save succeeds. |
| AdminLinkDelete.FromLink | PslibUrlShortener/Areas/Admin/Pages/Links/Delete.cshtml.cs:36-51 | The form round-trips the stored link and its token. |
| AdminLinkDelete.OnPost | PslibUrlShortener/Areas/Admin/Pages/Links/Delete.cshtml.cs:58-127 | An invalid model or a missing link means no deletion. A conflict arises exactly when both tokens are present and differ; the form is then refilled with the stored link and its current token. The check is skipped when either token is absent. Otherwise the link is hard-deleted, or an error is shown with the store unchanged. |
| AdminLinkDelete.RefilledFormPassesCheck | PslibUrlShortener/Areas/Admin/Pages/Links/Delete.cshtml.cs:73-90 | The refilled form carries the stored token, so posting it again passes the version check. |
| AdminQuickCreate.Submit | PslibUrlShortener/Areas/Admin/Pages/Create.cshtml.cs:41-57 | The code is the custom code, or else the generated one. The owner is the caller's subject, or else "unknown". A duplicate or a failed save, which makes `link.Code` throw, is a failure with the store unchanged. |
| AdminQuickCreate.OnPostAsWritten | PslibUrlShortener/Areas/Admin/Pages/Create.cshtml.cs:35-64 | The handler with the declared `{3,20}` pattern. An invalid model is shown again, any exception becomes a failure message, and nothing changes unless the create succeeds. |
| AdminQuickCreate.LongCodePassesButNeverStored | PslibUrlShortener/Areas/Admin/Pages/Create.cshtml.cs:74 | A custom code of 17 to 20 pattern characters passes the declared validation but always ends in a failure. The corrected page rejects it up front. |
| AdminQuickCreate.OnPost | PslibUrlShortener/Areas/Admin/Pages/Create.cshtml.cs:35-75 | With the pattern bounded by the 16-character column, every accepted custom code fits its column. Failure and change behave as in the handler as written. |
| AdminQuickCreate.CreatedWhenAccepted | PslibUrlShortener/Areas/Admin/Pages/Create.cshtml.cs:44-56 | A valid form with a free code is created whenever the save succeeds and the target and owner fit their columns. |
| Purge.Defaults | PslibUrlShortener/Services/PeriodicTasksService.cs:90-94 | One tick an hour, and the cutoff lies thirty days before now. |
| Purge.ExpiredIds | PslibUrlShortener/Services/PeriodicTasksService.cs:47-50 | Exactly the links soft-deleted strictly before the cutoff. |
| Purge.Tick | PslibUrlShortener/Services/PeriodicTasksService.cs:41-65 | A successful tick removes exactly the expired links and reports their number. Live links are never removed, and the survivors are unchanged. A failed tick is logged and changes nothing. |
| Purge.DeletedAtCutoffSurvives | PslibUrlShortener/Services/PeriodicTasksService.cs:49 | A link deleted exactly at the cutoff survives, because the comparison is strict. |
| Purge.TickIsIdempotent | PslibUrlShortener/Services/PeriodicTasksService.cs:47-65 | A second tick at the same time deletes nothing. A failed tick followed by a retry ends where one successful tick does. |
| Pagination.TotalPages | PslibUrlShortener/TagHelpers/PaginationTagHelper.cs:44 | The result is the ceiling of the count over `max(1, PageSize)`. |
| Pagination.WindowItems | PslibUrlShortener/TagHelpers/PaginationTagHelper.cs:74-78 | The window holds the increasing pages `lo..hi`, and only the current page is active. |
| Pagination.Process | PslibUrlShortener/TagHelpers/PaginationTagHelper.cs:41-94 | The corrected widget, with PageNo ± Window taken as true sums. Nothing is rendered exactly when there is at most one page. Prev targets PageNo−1 (or 1) and is disabled exactly on page 1. Next targets PageNo+1 (or the last page) and is disabled exactly on the last page. Page 1 and an ellipsis appear exactly when PageNo−Window > 1, and an ellipsis and the last page exactly when PageNo+Window < total. The window covers `max(1, PageNo−Window)..min(total, PageNo+Window)`. |
| Pagination.ProcessAsWritten | PslibUrlShortener/TagHelpers/PaginationTagHelper.cs:41-94 | The widget as written, with PageNo ± Window as unchecked `int` sums. It equals `Pagination.Process` whenever both sums fit in an `int`. Otherwise the ellipsis and the last page appear exactly when the wrapped PageNo+Window is below the page count, and a wrapped sum below 1 leaves the window empty. |
| Pagination.WrappedSumShowsLastPage | PslibUrlShortener/TagHelpers/PaginationTagHelper.cs:81-85 | With PageNo = int.MaxValue, Window 2, 100 items and page size 20, the widget as written renders "…" and page 5 after an empty window, while the corrected widget renders neither. |
| Pagination.LinksStayInRange | PslibUrlShortener/TagHelpers/PaginationTagHelper.cs:61-91 | For a current page in `1..total`, every link targets a page in `1..total`, and the only active item is the current page. |
| Pagination.Set | PslibUrlShortener/TagHelpers/PaginationTagHelper.cs:135-136 | The case-insensitive indexer sets the key and leaves every other key's lookup alone. |
| Pagination.Collect | PslibUrlShortener/TagHelpers/PaginationTagHelper.cs:130-133 | The copy loop drops blank keys. The first spelling of a key wins, ignoring case. |
| Pagination.LinkRoute | PslibUrlShortener/TagHelpers/PaginationTagHelper.cs:130-138 | PageNo and PageSize are always the widget's. Every other key finds the caller's first value under a non-blank key. |
| QrCode.ResolvePreset | PslibUrlShortener/Services/QrCodeService.cs:43-50 | Every preset gives ECC M, "#000000", "#FFFFFF" and quiet zones. |
| QrCode.ClampSize | PslibUrlShortener/Services/QrCodeService.cs:28 | The size is clamped into [64, 2048]. |
| QrCode.PixelsPerModule | PslibUrlShortener/Services/QrCodeService.cs:36 | Below 80 pixels the result is 2. From 80 pixels on it is the largest module width w with 40·w ≤ size, so 40 modules fit and one more pixel per module would not. |
| QrCode.ParseByte | PslibUrlShortener/Services/QrCodeService.cs:59-61 | `Convert.ToByte(pair, 16)`: a leading '-' throws `ArgumentException`. A leading '+' is skipped, and one hex digit gives its value. Two hex digits give `16·hi + lo`. Anything else throws `FormatException`. |
| QrCode.SignedPairs | PslibUrlShortener/Services/QrCodeService.cs:59-61 | "+F" reads as 15, "-F" throws `ArgumentException` and "0x" throws `FormatException`. |
| QrCode.HexToRgb | PslibUrlShortener/Services/QrCodeService.cs:52-63 | The input is trimmed and its leading '#'s stripped. A length other than 6 gives [0,0,0]. Six characters are read as three pairs by `ParseByte`, so the only exceptions are `FormatException` and `ArgumentException`. |
| QrCode.Triple | PslibUrlShortener/Services/QrCodeService.cs:57-62 | The three pairs are read left to right, and the first that does not parse decides the exception. Six hex digits always give the three base-16 values. |
| QrCode.HexRoundTrip | PslibUrlShortener/Services/QrCodeService.cs:52-63 | Parsing inverts the `#RRGGBB` spelling of any three bytes. |
| QrCode.PresetColours | PslibUrlShortener/Services/QrCodeService.cs:37-38 | The preset colours parse to black and white. |
| QrCode.GenerateSvg | PslibUrlShortener/Services/QrCodeService.cs:12-22 | Blank text throws `ArgumentException`. Otherwise the result is the preset's style: level M, `#000000` on `#FFFFFF`, with quiet zones. |
| QrCode.GeneratePng | PslibUrlShortener/Services/QrCodeService.cs:24-41 | Blank text throws `ArgumentException`. Otherwise the size is the request clamped into 64..2048 (64 below, 2048 above), the pixels per module are those of the clamped size, the level is M with quiet zones, and the colours are black [0,0,0] on white [255,255,255]. |
| Listing.PageSizeOf | PslibUrlShortener/Areas/Admin/Pages/Links/Index.cshtml.cs:71-74 | The requested size when it is allowed, else the default. Both directions hold. |
| Listing.PageNumberOf | PslibUrlShortener/Areas/Admin/Pages/Links/Index.cshtml.cs:76 | `max(1, PageNo ?? 1)`: at least 1, and the request itself when that is positive. |
| Listing.Window | PslibUrlShortener/Areas/Admin/Pages/Links/Index.cshtml.cs:155-156 | Skip/take returns exactly the rows from the skip on, up to the take. |
| Listing.PageRows | PslibUrlShortener/Areas/Admin/Pages/Links/Index.cshtml.cs:153-156 | The page skips `(page−1)·size` rows and takes at most `size`. It contains only rows of the input, and page 1 is a prefix. |
| Listing.PagesCoverRows | PslibUrlShortener/Areas/Admin/Pages/Links/Index.cshtml.cs:153-156 | With a positive size, row i is on page `i/size + 1`, at position `i mod size`. |
| Listing.EveryRowOnSomePage | PslibUrlShortener/Areas/Admin/Pages/Links/Index.cshtml.cs:150-156 | With a positive page size, every row of the result is on some page. |
| Listing.FilterConcat | PslibUrlShortener/Areas/Admin/Pages/Links/Index.cshtml.cs:84-130 | `Where` keeps the rows' order: filtering a concatenation is the concatenation of the filtered parts, and a single row is kept exactly when it satisfies the predicate. |
| Listing.SkipAsWritten | PslibUrlShortener/Areas/Admin/Pages/Links/Index.cshtml.cs:155 | The 32-bit skip equals the true one whenever that fits in an `int`. |
| Listing.PageRowsAsWritten | PslibUrlShortener/Areas/Admin/Pages/Links/Index.cshtml.cs:155-156 | The query as written fails exactly when the wrapped skip is negative. It agrees with `PageRows` when nothing overflows. |
| Listing.HugePageNumberFails | PslibUrlShortener/Areas/Admin/Pages/Links/Index.cshtml.cs:155 | Page 107374184 of 20 fails as written, and is empty when corrected. |
| Listing.DayStart | PslibUrlShortener/Areas/Admin/Pages/Links/Index.cshtml.cs:123 | `.Date` gives the start of the instant's day. |
| Listing.WholeDaysIncluded | PslibUrlShortener/Areas/Admin/Pages/Links/Index.cshtml.cs:121-130 | A creation time passes the From/To filters exactly when its day lies between the From day and the To day, both inclusive. |
| Listing.DayMonotone | PslibUrlShortener/Areas/Admin/Pages/Links/Index.cshtml.cs:121-130 | Day starts are monotone and fix day boundaries. |
| Listing.EnumerationCount | PslibUrlShortener/Areas/Admin/Pages/Links/Index.cshtml.cs:132 | The count of a query equals the number of rows it enumerates. |
| Listing.Present | PslibUrlShortener/Areas/Admin/Pages/Links/Index.cshtml.cs:71-156 | The count is taken before paging. The page number and size are clamped, and the rows are that page of the ordered result. |
| Listing.Preview | PslibUrlShortener/Areas/Links/Pages/Details.cshtml.cs:57-65 | The preview is the service's URL, or `{scheme}://{host}/{code}` when the service throws. |
| Listing.HitsPageSizeOf | PslibUrlShortener/Areas/Links/Pages/Details.cshtml.cs:69 | The size is clamped into [5, 200], and is 20 when absent. |
| Listing.HitsOf | PslibUrlShortener/Areas/Links/Pages/Details.cshtml.cs:71-73 | Exactly the hits of that link. |
| Listing.PageOfNewestFirst | PslibUrlShortener/Areas/Links/Pages/Details.cshtml.cs:76-79 | A page of a newest-first list is newest first. |
| Listing.HitsSection | PslibUrlShortener/Areas/Links/Pages/Details.cshtml.cs:68-80 | The total counts all of the link's hits. The shown hits are exactly the clamped page of the newest-first ordering: at most `size` of them, only this link's, newest first. Page 1 starts with the newest. |
| Listing.EveryHitOnSomePage | PslibUrlShortener/Areas/Links/Pages/Details.cshtml.cs:68-80 | Every recorded hit of the link is shown on some page of the hits section. |
| AdminLinkList.OwnerName | PslibUrlShortener/Areas/Admin/Pages/Links/Index.cshtml.cs:78-81 | The included owner's display name, or null when no owner is stored. |
| AdminLinkList.Matching | PslibUrlShortener/Areas/Admin/Pages/Links/Index.cshtml.cs:84-130 | Exactly the stored links that pass every filter. The filters are conjunctive, case-insensitive substring tests plus the day window. |
| AdminLinkList.NoFiltersMatchEverything | PslibUrlShortener/Areas/Admin/Pages/Links/Index.cshtml.cs:84-130 | Without filters every link, soft-deleted ones included, is listed. |
| AdminLinkList.DomainFilterSkipsNullDomain | PslibUrlShortener/Areas/Admin/Pages/Links/Index.cshtml.cs:96-100 | A domain filter never matches a link without a domain. |
| AdminLinkList.OrderOf | PslibUrlShortener/Areas/Admin/Pages/Links/Index.cshtml.cs:135-149 | Any order other than the default was asked for by name, and each order's name selects it. An unknown name falls back to CreatedAt descending. |
| AdminLinkList.BuildShortUrl | PslibUrlShortener/Areas/Admin/Pages/Links/Index.cshtml.cs:202-212 | The result always ends in "/" + code. An http(s) domain, in any case, loses its trailing '/'s. A blank domain gives the request base. Any other domain gives `{scheme}://{trimmed domain}`. |
| AdminLinkList.RowOf | PslibUrlShortener/Areas/Admin/Pages/Links/Index.cshtml.cs:160-173 | The row copies the link's fields, adds its short URL, and shows the owner's name or "(no owner)". |
| AdminLinkList.OnGet | PslibUrlShortener/Areas/Admin/Pages/Links/Index.cshtml.cs:64-184 | The order is the one selected. The count is that of the matching links. The paging is clamped. The rows are, in order, the rows of exactly the links on that page of the ordered result, each a matching link. |
| AdminLinkList.EveryMatchListed | PslibUrlShortener/Areas/Admin/Pages/Links/Index.cshtml.cs:150-184 | With positive page sizes, every matching link is a row of some page. |
| AdminLinkList.OnPostAction | PslibUrlShortener/Areas/Admin/Pages/Links/Index.cshtml.cs:186-200 | A null soft-delete or restore result yields "not found", and any other result the success message. An exception propagates. |
| AdminIndex.OrderOf | PslibUrlShortener/Areas/Admin/Pages/Index.cshtml.cs:123-135 | Any order other than the default was asked for by name, and each order's name selects it. An unknown name, including the links list's domain orders, falls back to CreatedAt descending. |
| AdminIndex.RowOf | PslibUrlShortener/Areas/Admin/Pages/Index.cshtml.cs:145-157 | The short URL is always `{scheme}://{host}/{code}`. |
| AdminIndex.Project | PslibUrlShortener/Areas/Admin/Pages/Index.cshtml.cs:145-157 | The projection throws `NullReferenceException` exactly when some row's owner is not loaded. |
| AdminIndex.OnGetAsWritten | PslibUrlShortener/Areas/Admin/Pages/Index.cshtml.cs:62-166 | The handler as written fails exactly when the page is not empty, and it never shows a row. The count is still set. |
| AdminIndex.OneLinkDashboardFails | PslibUrlShortener/Areas/Admin/Pages/Index.cshtml.cs:76 | With one stored link the page as written reports the fetch error, while the corrected one shows that link. |
| AdminIndex.IncludedOwnersProject | PslibUrlShortener/Areas/Admin/Pages/Index.cshtml.cs:145-157 | With the owners loaded, the projection succeeds and shows each owner's name or "(no owner)". |
| AdminIndex.OnGet | PslibUrlShortener/Areas/Admin/Pages/Index.cshtml.cs:62-166 | The corrected handler never fails. Its count covers the links passing the search and filters, and the search does not look at the domain. Its rows are, in order, those of exactly the links on the clamped page, each with its owner's name. |
| AdminIndex.EveryMatchListed | PslibUrlShortener/Areas/Admin/Pages/Index.cshtml.cs:136-157 | With positive page sizes, every matching link is a row of some page of the corrected dashboard. |
| OwnerList.Matching | PslibUrlShortener/Areas/Admin/Pages/Owners/Index.cshtml.cs:70-78 | Exactly the owners whose display name, e-mail or subject contains the search, ignoring case. |
| OwnerList.LiveLinkIds | PslibUrlShortener/Areas/Admin/Pages/Owners/Index.cshtml.cs:89 | Exactly the owner's links that are not soft-deleted. |
| OwnerList.SoftDeleteLowersCount | PslibUrlShortener/Areas/Admin/Pages/Owners/Index.cshtml.cs:89 | Soft-deleting one of an owner's live links lowers its count by one. |
| OwnerList.OtherOwnersUnaffected | PslibUrlShortener/Areas/Admin/Pages/Owners/Index.cshtml.cs:89 | Writing another owner's link leaves the count unchanged. |
| OwnerList.RowOf | PslibUrlShortener/Areas/Admin/Pages/Owners/Index.cshtml.cs:84-91 | A blank display name shows "(bez jména)", and LinksCount counts the live links. |
| OwnerList.OrderOf | PslibUrlShortener/Areas/Admin/Pages/Owners/Index.cshtml.cs:94-104 | Each order's name selects it. An unknown name falls back to LinksCount descending. |
| OwnerList.OnGet | PslibUrlShortener/Areas/Admin/Pages/Owners/Index.cshtml.cs:55-123 | The count covers the matching owners and the paging is clamped. The rows are, in order, those of exactly the owners on that page of the ordered result, each with its live-link count. |
| OwnerList.EveryMatchListed | PslibUrlShortener/Areas/Admin/Pages/Owners/Index.cshtml.cs:105-123 | With positive page sizes, every matching owner is a row of some page. |
| LinkList.Matching | PslibUrlShortener/Areas/Links/Pages/Index.cshtml.cs:53-63 | Exactly the caller's live links whose code, target or title contains the trimmed search. |
| LinkList.ListsAreDisjoint | PslibUrlShortener/Areas/Links/Pages/Index.cshtml.cs:53-54 | Two callers never see the same link. |
| LinkList.OrderOf | PslibUrlShortener/Areas/Links/Pages/Index.cshtml.cs:65-73 | Each order's name selects it. An unknown name falls back to CreatedAt descending. |
| LinkList.ShortUrlDisplay | PslibUrlShortener/Areas/Links/Pages/Index.cshtml.cs:98-105 | A non-blank domain gives `https://{domain}/{code}`; otherwise `{scheme}://{host}/{code}`. |
| LinkList.OnGet | PslibUrlShortener/Areas/Links/Pages/Index.cshtml.cs:44-96 | Forbid exactly for a missing or blank subject. Otherwise the count is that of the caller's matching links, and the size is the requested one if it is in {10, 20, 50, 100}, else 20. The rows are, in order, those of exactly the links on the clamped page of the ordered result. |
| LinkList.EveryMatchListed | PslibUrlShortener/Areas/Links/Pages/Index.cshtml.cs:70-96 | Every one of the caller's matching links is a row of some page. |
| LinkDetails.OnGet | PslibUrlShortener/Areas/Links/Pages/Details.cshtml.cs:41-102 | The owner is ensured first. The link is shown exactly when the caller owns it, with the preview built without a domain and the hits section. |
| LinkDetails.ForeignLinkLooksMissing | PslibUrlShortener/Areas/Links/Pages/Details.cshtml.cs:41-54 | For a caller who does not own the id, the page answers exactly as for an id no link has. |
| LinkDetails.OwnerSeesEveryHit | PslibUrlShortener/Areas/Links/Pages/Details.cshtml.cs:68-80 | The owner can page to every recorded hit of the link. |
| LinkDetails.OnPostAction | PslibUrlShortener/Areas/Links/Pages/Details.cshtml.cs:105-153 | A non-owner gets "not found", and no service call is made. For the owner the service's store is kept, and the message follows the result. |
| LinkDetails.ForeignActionLooksMissing | PslibUrlShortener/Areas/Links/Pages/Details.cshtml.cs:105-113 | Soft-deleting or restoring another user's link answers and changes the store exactly as for a missing id, whatever the service would have done. |
| LinkDetails.ThrowReportedAsNull | PslibUrlShortener/Areas/Links/Pages/Details.cshtml.cs:115-125 | A service exception is reported exactly as a null result is. On the caller's own link that is the failure message, with the store the service left. |
| LinkDetails.BindFormat | PslibUrlShortener/Areas/Links/Pages/Details.cshtml.cs:155 | The bound `fmt` is the default "svg" when the request has none. A blank value binds as null, and any other value binds as itself. |
| LinkDetails.OnGetQr | PslibUrlShortener/Areas/Links/Pages/Details.cshtml.cs:155-179 | The store is the one `EnsureOwner` leaves. 404 exactly when the caller does not own the link. For the owner, a returned URL with a blank `fmt` throws `NullReferenceException`. `png` in any case gives the PNG plan of the link's URL and any other format the SVG style. With a non-blank URL the answer is an image exactly when `fmt` is absent or not blank. Generator and encoder exceptions propagate. |
| LinkDetails.QrImage | PslibUrlShortener/Areas/Links/Pages/Details.cshtml.cs:164-178 | The steps after the link is found: the URL's exception first, then the null `fmt`, then the PNG or SVG chosen by the format. The answer is never 404. |
| LinkDetails.FormatDefaults | PslibUrlShortener/Areas/Links/Pages/Details.cshtml.cs:155-178 | With no `fmt` the answer is the preset's SVG, with `fmt=` it is `NullReferenceException`, and with `fmt=PNG` it is the PNG plan. |
| AdminLinkDetails.OnGet | PslibUrlShortener/Areas/Admin/Pages/Links/Details.cshtml.cs:28-90 | NotFound exactly for a missing link. Otherwise the owner's name or "(no owner)", the preview, and the hits section with page size clamped into [5, 200]. |
| AdminLinkDetails.EveryHitShown | PslibUrlShortener/Areas/Admin/Pages/Links/Details.cshtml.cs:52-64 | Every recorded hit of a stored link is on some page of its hits section. |
| AdminLinkDetails.OnPostAction | PslibUrlShortener/Areas/Admin/Pages/Links/Details.cshtml.cs:93-123 | A null result gives "not found". An exception gives the failure message. Any other result gives success. |
| AdminLinkDetails.AgreesWithListUnlessThrown | PslibUrlShortener/Areas/Admin/Pages/Links/Details.cshtml.cs:93-123 | The details page and the list page answer a returned result alike. On an exception the list page propagates it, and the details page reports the action as not done. |
| Text.BlankToNull | PslibUrlShortener/Areas/Admin/Pages/Links/Create.cshtml.cs:52-56 | Null exactly for null or blank input. Otherwise the input itself, which is not blank. |
| Text.BlankToEmpty | PslibUrlShortener/Areas/Admin/Pages/Links/Create.cshtml.cs:53 | The result is blank exactly when the input is null or blank. It is then empty, and otherwise the input. |
| Text.Trim | PslibUrlShortener/Areas/Links/Pages/Create.cshtml.cs:57-59 | `Trim` returns a contiguous slice of the input that neither starts nor ends with white space, and everything cut off on either side is white space. It is empty exactly for blank input. |

## Left out

**Service methods whose bodies are not part of this model.** These are parameters:
- `ResolveForRedirectAsync`, `RegisterHitAndTouchAsync` and `LooksLikeBot`;
- `SoftDeleteAsync` and `RestoreAsync`, given as the result or store transition they produce;
- the three-argument `GenerateShortUrl`, given as its result or exception.

No domain precedence, click accounting or restore rule is assumed.

**Entity Framework runtime.** Left out:
- change tracking, SQL translation, collation and `ExecuteDeleteAsync`;
- database-generated row versions, which are opaque tokens supplied by the caller;
- the outcome of a save, which is an abstract flag combined with the store's constraints;
- optimistic-concurrency failures, which are part of that flag.

Change tracking is modelled in one place only: the admin edit page, where `Update` meets an instance already tracked by `FindAsync` (a finding below).

**Foreign key and owner lookups.**
- The foreign key from `Link.OwnerSub` to `Owner.Sub` is not a store invariant: it is part of the abstract save flag, and a link's owner may be absent from the registry, in which case the pages show the "no owner" label. Its cascade on deleting an owner is modelled in `OwnerManager.Delete`.
- The nullable `LinkHits.LinkId1` column and its foreign key (the References migration) are left out: no modelled code writes it.
- A page that includes the owner shows its name when the owner exists.

**Ordering.**
- The pages' sort keys, such as the tie-break by `UpdatedAtUtc` on the owners page, are not modelled.
- Each list page takes the rows in whatever order the database returns them, as a parameter that enumerates the matching set. Only the choice of order is modelled.

**Text comparison.**
- Case-insensitive comparisons fold ASCII letters only. `ToLower` and the database's collation do more.
- `LinkList.Matching` uses an ordinal `Contains`, as the C# expression reads. The database's collation may make it case-insensitive.

**Time.**
- The Europe/Prague conversion in the self-service create page is left out. Times are whole seconds, already in UTC.
- `DateTime.UtcNow` is a parameter.
- `AddDays` overflow near `DateTime.MinValue` is left out.

**Parsing.** Left out:
- `Uri.TryCreate` and `[Url]`'s exact grammar: the parser is a parameter, and `[Url]` is a prefix test on the scheme;
- `Convert.FromBase64String`: a parameter.

**Randomness.** `Random.Shared` and `RandomNumberGenerator` are replaced by explicit draws and bytes.

**Identity of the caller.** The self-service list page reads the "sub" claim, while the other pages read `NameIdentifier`. Both are parameters. How the authentication handler maps one onto the other is not modelled.

**Rendering and plumbing.** Left out:
- QR rendering by QRCoder: only the inputs handed to it are modelled;
- the tag helpers' HTML;
- `PageSizeSelectorTagHelper`;
- logging, TempData plumbing, response caching headers, the timer and its scheduling;
- startup, authentication and middleware.

**Inputs and failures not modelled.**
- Null entity arguments of `LinkManager`: pages never pass one.
- Areas/Links/Pages/Create.cshtml.cs:91 assigns `OwnerName`, a property `Link` does not have (the References migration drops that column), so that file does not compile as given. The model leaves the assignment out.
- Database failures while a list page queries: each list page is modelled on its successful path, except for the dashboard's projection error, which is a finding below.

**Weaker contracts.**
- LinkManager.GenerateRandomCode: models a finite prefix of the draw stream. It returns `None` when every draw in the prefix collides, where the service would keep drawing.
- Pagination.TotalPages: models `Math.Ceiling` over doubles as exact integer ceiling division. For `int` operands the two agree.
- Pagination.ProcessAsWritten: when the page count is `int.MaxValue` (2147483647 items at page size 1) and the window reaches it, the loop counter `i++` wraps past `int.MaxValue` and the loop does not end. The model renders the finite window instead.
- AdminLinkEdit.SaveResetsStatistics: holds for the corrected handler `AdminLinkEdit.OnPost`. As written the page saves no edit at all (`AdminLinkEdit.ValidEditNeverSaved`, a finding below).
- AdminLinkEdit.SavedWhenAccepted: holds for the corrected handler only. As written every such request ends in the unexpected-error message (`AdminLinkEdit.OnPostAsWritten`).
- Annotations.LengthAtMost: counts a string's length in Unicode scalar values. `[StringLength]`, `string.Length` and an `nvarchar(n)` column count UTF-16 code units, so a character outside the Basic Multilingual Plane counts once here and twice in .NET. `Model.FitsColumns` counts the same way. A code of nine U+1F600 characters is 18 code units, which .NET rejects against a 16-character limit; the model accepts it.
- Redirect.MatchRoute: matches `[A-Za-z0-9_-]` by ASCII only. ASP.NET compiles route regexes with `IgnoreCase | CultureInvariant`, so a non-ASCII case equivalent of a letter, such as the Kelvin sign U+212A for 'k', also satisfies the constraint. The model sends such a code to the other endpoints.
- Redirect.RouteRejectsSeparators: names only '/', '?', '#', '.', ' ' and '%'. Outside ASCII letters, digits, `_` and `-`, the route rejects every ASCII character, which `Redirect.MatchRoute` states in full.

## Findings

| source | as written | input that shows it | evidently intended | confidence | as-written member | corrected member |
|---|---|---|---|---|---|---|
| PslibUrlShortener/Areas/Admin/Pages/Create.cshtml.cs:74 | The custom-code pattern allows 3 to 20 characters, but the `Code` column holds 16. | CustomCode "abcdefghijklmnopq" (17 letters) is valid, and the create always fails. | A pattern bounded by the column, `{3,16}`. | high; not executed | AdminQuickCreate.LongCodePassesButNeverStored | AdminQuickCreate.OnPost |
| PslibUrlShortener/Areas/Links/Pages/Create.cshtml.cs:46-111 | `ModelState.IsValid` is never consulted, so `[StringLength(16)]` on CustomCode has no effect. | A free, safe CustomCode of 17 characters passes every check, and the save throws `DbUpdateException`, which is not caught. | Check the model state first, as every other form does. | high; not executed | SelfCreate.LongCustomCodeThrows | SelfCreate.OnPost |
| PslibUrlShortener/Areas/Links/Pages/Create.cshtml.cs:117-119 | An empty TargetUrl binds as null, and `input.Trim()` dereferences it. | A POST with an empty target throws `NullReferenceException` instead of showing the form. | `[Required]` rejects the form before normalisation. | medium; not executed | SelfCreate.NullTargetThrows | SelfCreate.OnPost |
| PslibUrlShortener/Areas/Admin/Pages/Index.cshtml.cs:76-157 | The query does not include `Owner`, but the projection reads `l.Owner.DisplayName`. | Any non-empty page. With one stored link the dashboard shows the fetch error and no rows. | Include the owner, and read its name null-safely, as the links list does. | medium; not executed | AdminIndex.OneLinkDashboardFails | AdminIndex.OnGet |
| PslibUrlShortener/Areas/Admin/Pages/Links/Edit.cshtml.cs:66-114 | The original is loaded with `FindAsync`, which tracks it, and a new `Link` with the same id goes to `UpdateAsync`, whose `Update` (Services/LinkManager.cs:110) is outside its try. | Any valid edit of a stored link with a free code: `Update` throws `InvalidOperationException` for the second instance with the same key, the general catch shows "Neočekávaná chyba při ukládání." and nothing is saved. | Read the original without tracking (or copy the form into the tracked instance), so the edit is saved. | medium; not executed | AdminLinkEdit.ValidEditNeverSaved | AdminLinkEdit.OnPost |
| PslibUrlShortener/Areas/Admin/Pages/Links/Index.cshtml.cs:155 | `(pageNumber - 1) * pageSize` is computed in 32-bit `int` and wraps. | PageNo=107374184 with PageSize=20 gives a negative skip, which the server rejects as an OFFSET. | Compute the skip without overflow, or bound the page number. The same expression is at Admin/Pages/Index.cshtml.cs:140, Owners/Index.cshtml.cs:109, Links/Pages/Index.cshtml.cs:77 and both Details pages. | medium; not executed | Listing.HugePageNumberFails | Listing.PageRows |
| PslibUrlShortener/TagHelpers/PaginationTagHelper.cs:67-82 | `PageNo - Window` and `PageNo + Window` are unchecked `int` sums, and the page number is bounded only from below by the pages. | PageNo=2147483647, Window=2, TotalCount=100, PageSize=20: `PageNo + Window` wraps to −2147483647, so the widget renders "…" and page 5 after an empty window. | Compare against the true sums (or clamp PageNo to the page count), so the trailing ellipsis appears only when pages lie past the window. | medium; not executed | Pagination.WrappedSumShowsLastPage | Pagination.Process |
