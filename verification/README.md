# Ontriq site core, modelled in Dafny

This project models the logic of the Ontriq marketing site that lies beneath its
React markup. It covers these parts:

- the admin CRM dashboard: the pipeline board, the handlers that convert an
  inquiry into a lead, create, edit and delete leads, add, rename and delete
  stages, and drag a lead between stages, plus the derived inquiry views and
  metrics;
- the in-memory rate limiter;
- the `/admin` middleware guard and the server-side admin page decision;
- the Supabase environment helpers;
- the chat API route, the chat widget's submit flow, and its message renderer
  (URL links with friendly names, `**bold**` spans);
- the inquiry and admin-login API routes with their zod schemas;
- the navbar's active-link test and the site chrome's admin-route test.

Each source component is one module:

| file | module |
|---|---|
| `optional.dfy`, `text.dfy` | `Optional`, `Text`: the option type; JavaScript string primitives (trim, `\s`, ASCII lower case, UTF-16 length, `indexOf`, decimal rendering) |
| `supabase_env.dfy` | `SupabaseEnv` |
| `admin_page.dfy` | `AdminPage` |
| `navigation.dfy` | `Navigation` (navbar and site chrome) |
| `middleware.dfy` | `AdminMiddleware` |
| `binary64.dfy`, `rate_limit.dfy` | `Binary64` (exact IEEE-754 double rounding of `size * 0.1`), `RateLimit` |
| `chat_route.dfy`, `chat_widget.dfy`, `chat_render.dfy` | `ChatRoute`, `ChatWidget`, `ChatRender` |
| `schema.dfy`, `inquiry_route.dfy`, `login_route.dfy` | `Schema` (the zod checks used), `InquiryRoute`, `LoginRoute` |
| `crm.dfy`, `crm_columns.dfy`, `crm_stages.dfy`, `crm_leads.dfy`, `crm_views.dfy` | `Crm` (board state and the reload), `CrmColumns`, `CrmStages`, `CrmLeads`, `CrmViews` |

Everything the code gets from the outside is passed in as a parameter: the
environment variables, the current time, the Supabase query and auth results,
the OpenAI completion, the `fetch` reply, the email validator and URL hostname
parser. Each dashboard handler is a pure step. It takes the board state and
the outcomes of its database calls. It returns the new board, the list of
writes it issued, and whether it reloaded.

A JavaScript string is a sequence of UTF-16 code units. Here a string is a
sequence of Unicode scalar values, and `Text.Utf16Length` gives the
`.length` that zod's `min`/`max` compare against.

## Model

| member | source | states |
|---|---|---|
| Text.Trim | components/admin/admin-dashboard.tsx:385 | the result neither starts nor ends with whitespace, and is empty exactly when the input is blank |
| Text.TrimOfPadded | components/admin/admin-dashboard.tsx:385 | whitespace padding around a string with non-blank ends trims back to that string, so the contract of `Trim` fixes its result |
| Text.TrimIdempotent | components/ai-chat-widget.tsx:106 | trimming an already trimmed input changes nothing |
| Text.DecimalRoundTrip | components/ai-chat-widget.tsx:113 | the decimal rendering of a timestamp used in message ids reads back as the same number |
| SupabaseEnv.GetSupabaseEnv | lib/supabase/env.ts:6-12 | no configuration exactly when the URL or the anon key is missing or empty; otherwise both values are returned unchanged |
| SupabaseEnv.RequireSupabaseEnv | lib/supabase/env.ts:14-22 | throws the fixed "Supabase env missing" message exactly when `getSupabaseEnv` finds nothing, and otherwise returns its value |
| SupabaseEnv.HasSupabaseEnv | lib/supabase/env.ts:24-26 | true exactly when both variables are present and non-empty |
| AdminPage.Decide | app/admin/page.tsx:6-30 | the dashboard renders iff the env is absent or an admin user is signed in; every other case redirects to `/admin/login`; the user and profile lookups happen only when the env is present |
| Navigation.IsNavActive | components/navbar.tsx:72-79 | never active without a pathname; `/` is active only on `/`; any other link is active on its own path or under `href + "/"` |
| Navigation.NavActiveIsUnderPath | components/navbar.tsx:72-79 | for a non-root link, active iff the path equals the link or extends it by a `/`-separated segment (so `/aboutus` does not match `/about`) |
| Navigation.IsAdminRoute | components/site-chrome.tsx:9 | true iff the path is `/admin` or starts with `/admin/` |
| Navigation.AdminRouteIsUnderAdmin | components/site-chrome.tsx:9 | the admin-route test is the same segment-wise prefix relation the navbar uses, for `/admin` |
| Navigation.SiteChrome | components/site-chrome.tsx:7-22 | admin routes render only the page; all others render navbar, page and footer in that order |
| AdminMiddleware.SetParam | middleware.ts:24 | after `searchParams.set`, the name occurs exactly once with the new value, and every other parameter is untouched; with no pair of that name the new one is appended, otherwise it takes the place of the first such pair and the later ones are dropped |
| AdminMiddleware.WithoutIdempotent | middleware.ts:24 | removing a parameter name twice is the same as removing it once |
| AdminMiddleware.Guard | middleware.ts:4-30 | `/admin/login` always passes; redirects iff the path starts with `/admin` and neither session cookie is present; the redirect keeps the origin, goes to `/admin/login` and carries the original path as the single `next` parameter |
| AdminMiddleware.HasAccessToken | middleware.ts:16 | true iff some cookie is named `sb-access-token` |
| AdminMiddleware.IsAuthHelpersCookie | middleware.ts:19 | true iff the name starts with `sb-` and contains `auth-token` somewhere |
| AdminMiddleware.HasAuthHelpersToken | middleware.ts:17-19 | true iff some cookie's name is an auth-helpers cookie name |
| AdminMiddleware.MatchedPathsGuarded | middleware.ts:15-34 | on every path the matcher selects, a redirect happens iff the path is not the login page and no session cookie is present |
| AdminMiddleware.AuthHelpersCookieExample | middleware.ts:19 | chunked auth-helpers cookie names are recognised; `sb-access-token` is not an auth-helpers cookie |
| Binary64.CeilTenthPositive | lib/rate-limit.ts:34 | `Math.ceil(size * 0.1)` in double arithmetic is at least 1 for every positive size |
| Binary64.CeilTenthAtMost | lib/rate-limit.ts:34 | `Math.ceil(size * 0.1)` in double arithmetic never exceeds the size |
| Binary64.CeilTenthBelow | lib/rate-limit.ts:34 | from a size of two on, `Math.ceil(size * 0.1)` in double arithmetic is strictly below the size, so the cleanup never empties the map |
| RateLimit.InWindow | lib/rate-limit.ts:23 | keeps only timestamps after the window start; keeps all of them if all are recent, none if none are |
| RateLimit.InWindowMembers | lib/rate-limit.ts:23 | a timestamp survives the filter iff it was stored and is newer than the window start |
| RateLimit.InWindowNarrow | lib/rate-limit.ts:23 | filtering by a later window start after an earlier one is the same as filtering once by the later one |
| RateLimit.Cleanup | lib/rate-limit.ts:31-36 | the cache after cleanup is a suffix of the cache before it, and entries are dropped iff the size exceeds `uniqueTokenPerInterval` |
| RateLimit.EvictionCount | lib/rate-limit.ts:34 | a cache that needs cleanup loses at least one and at most all of its entries |
| RateLimit.Check | lib/rate-limit.ts:11-42 | refused iff the token already has `limit` timestamps in the window; a refusal leaves the cache unchanged; a non-positive limit always refuses |
| RateLimit.CheckKeepsMap | lib/rate-limit.ts:20-36 | the cache stays a map from distinct tokens; an admitted token now holds its in-window timestamps plus `now`, at most `limit` of them; every other token keeps its list or is evicted |
| RateLimit.GetAfterPut | lib/rate-limit.ts:29 | `Map.set` then `get` returns the stored list, and other tokens are unaffected |
| RateLimit.WindowElapsedAdmits | lib/rate-limit.ts:18-28 | once every stored timestamp of a token has left the window, its next request is admitted for any positive limit |
| RateLimit.BurstAdmitsUpToLimit | lib/rate-limit.ts:11-42 | within one window, a burst from one token admits exactly as many requests as the limit leaves room for, then refuses all the rest; this holds from any map the limiter can reach: one with room for the token, where no cleanup runs, or a full map the token is new to, where the cleanup evicts other keys and never the token |
| RateLimit.RoomyStep | lib/rate-limit.ts:18-36 | one check in a map with room for the token evicts nothing: the map stays well formed and keeps room, and the token gains exactly one stamp iff it is admitted |
| RateLimit.SixthRequestRefused | lib/rate-limit.ts:25-26 | with a limit of 5, six requests in one window give five admissions and one refusal |
| RateLimit.CheckKeepsBound | lib/rate-limit.ts:28-36 | a check never leaves the map above `uniqueTokenPerInterval` keys, so every map reached from the empty one stays within it |
| RateLimit.EvictionLeavesOne | lib/rate-limit.ts:34 | from two keys on, the cleanup deletes fewer keys than the map holds |
| RateLimit.AdmittedTokenSurvives | lib/rate-limit.ts:28-36 | in a map within a bound of at least one key, the token just admitted keeps its in-window stamps plus `now` after the cleanup: the cleanup deletes the oldest keys and the token set last is the newest |
| RateLimit.AdmittedTokenEvictedWithoutRoom | lib/rate-limit.ts:28-36 | with `uniqueTokenPerInterval` 0, a token admitted into the empty map is deleted again by the cleanup at once |
| ChatRoute.JoinText | app/api/chat/route.ts:36-40 | a part list throws iff it holds a null part; otherwise it gives one message |
| ChatRoute.TextOfAppend | app/api/chat/route.ts:37-40 | the joined text of two part lists is the concatenation of their joined texts |
| ChatRoute.FormatMessage | app/api/chat/route.ts:33-48 | a null message throws; a `parts` array gives the text of its non-empty text parts; otherwise the message's string `content` or `""` |
| ChatRoute.FormatAll | app/api/chat/route.ts:33-49 | the messages are formatted one for one; formatting throws iff some message throws, and the error raised is that of the first message that throws |
| ChatRoute.ContentMessagesForwardedVerbatim | app/api/chat/route.ts:41-47 | plain `{role, content}` messages reach the model unchanged |
| ChatRoute.Post | app/api/chat/route.ts:8-83 | 500 with the missing-key message without an API key; 400 iff the key is present and `messages` is not an array; the model is called iff key, array and formatting all succeed, and then receives exactly the normalised conversation; 200 with the completion text only then; an unparseable or null body and a throwing message each give a 500 carrying that error's own text as details |
| ChatWidget.ToApi | components/ai-chat-widget.tsx:124-127 | the API payload keeps the role and content of every message, in order |
| ChatWidget.Begin | components/ai-chat-widget.tsx:104-127 | ignored iff the trimmed input is empty or a request is in flight; otherwise appends the trimmed user message, clears the input and error, and sends the whole history |
| ChatWidget.Finish | components/ai-chat-widget.tsx:137-157 | a successful reply appends one non-empty assistant message; any other outcome keeps the messages and sets the error text; loading ends in both cases |
| ChatWidget.Submit | components/ai-chat-widget.tsx:104-158 | an empty input or an in-flight request leaves the widget unchanged |
| ChatWidget.SuccessfulExchange | components/ai-chat-widget.tsx:104-158 | a successful exchange adds the user message and the reply, with the apology text when the reply is empty |
| ChatWidget.FailedExchange | components/ai-chat-widget.tsx:139-157 | a failed exchange keeps the user message, adds no reply and shows the error |
| ChatWidget.ErrorTextExamples | components/ai-chat-widget.tsx:140 | a non-OK reply without an error text reports `HTTP <status>` |
| ChatWidget.ErrorText | components/ai-chat-widget.tsx:140-154 | a thrown error shows its own message; a non-OK reply shows its truthy `error` text, else a text beginning `HTTP ` |
| ChatWidget.ErrorTextNamesStatus | components/ai-chat-widget.tsx:140 | without an error text, what follows `HTTP ` is all digits and reads back as the response status |
| ChatRender.ContainsUrlIff | components/ai-chat-widget.tsx:32 | a string contains a URL match iff some position starts an `http(s)://` run of non-space characters |
| ChatRender.SplitUrls | components/ai-chat-widget.tsx:34 | `split` with the capturing URL pattern gives URLs exactly at odd positions, URL-free text at even positions, and pieces that concatenate back to the input |
| ChatRender.StripPunct | components/ai-chat-widget.tsx:41-42 | removes exactly the maximal run of trailing `.,;:!?)` |
| ChatRender.StripPunctExample | components/ai-chat-widget.tsx:41-42 | a link followed by `).` is cleaned to the bare link |
| ChatRender.DisplayName | components/ai-chat-widget.tsx:18-53 | a known link shows its friendly name; otherwise the hostname without `www.`; otherwise the cleaned URL |
| ChatRender.DisplayNameExample | components/ai-chat-widget.tsx:27-28 | the contact page link shows as "Contact Page" |
| ChatRender.ContainsBoldIff | components/ai-chat-widget.tsx:71 | a string contains a bold match iff some `**` is followed on the same line by a later `**` |
| ChatRender.SplitBold | components/ai-chat-widget.tsx:71-72 | odd pieces are the single-line inner texts without `**`, even pieces hold no bold match, and the pieces reassemble into the input |
| ChatRender.RenderPart | components/ai-chat-widget.tsx:36-83 | a piece becomes a link iff it matches the URL pattern; the link targets the piece without its trailing punctuation, is captioned with that target's display name, and its target and trailing punctuation together give the piece back |
| ChatRender.RenderShape | components/ai-chat-widget.tsx:16-85 | links occur exactly at odd positions; each link's href has no trailing punctuation; each text span reassembles to its piece |
| ChatRender.Render | components/ai-chat-widget.tsx:34-84 | one span per piece of the URL split, so always an odd number of spans |
| ChatRender.RenderKeepsText | components/ai-chat-widget.tsx:34-84 | rendering loses no text: the spans' sources, read in order, spell the message exactly |
| InquiryRoute.ParseInquiry | app/api/inquiries/route.ts:6-13 | an object is accepted iff it has no schema issue, and a rejection lists exactly those issues; accepted values meet every length and email bound and every field, phone and source URL included, is taken from the request |
| InquiryRoute.AcceptsExactlySchema | app/api/inquiries/route.ts:6-13 | an object is accepted iff first and last name hold 1..100 code units, the email at most 255 and passes the email test, the message 1..5000, and phone and source URL are absent, null or strings of at most 50 and 2000 |
| Schema.StringIssues | app/api/inquiries/route.ts:6-13 | a field has no issue iff it is a string passing every check, or an optional field that is missing or null; a missing required field reports `Required` alone; every issue carries the field's path |
| InquiryRoute.LongFirstNameRefused | app/api/inquiries/route.ts:7 | a first name over 100 code units is refused with status 400 and nothing is inserted |
| InquiryRoute.ToRow | app/api/inquiries/route.ts:25-32 | the inserted row maps back to the parsed inquiry, so no field is lost |
| InquiryRoute.Post | app/api/inquiries/route.ts:15-43 | a row is inserted iff the body parses, validates and the env is present; OK iff the insert also succeeds; otherwise 400 with the JSON parse error, the schema issues, the env message or the database error, each stated exactly |
| InquiryRoute.MinimalSubmissionAccepted | app/api/inquiries/route.ts:15-38 | a well-formed submission without phone or source URL is stored with both as null |
| LoginRoute.ParseLogin | app/api/admin/login/route.ts:5-8 | accepted iff both fields pass their checks, with the credentials taken from the fields; a non-object is refused with one root issue; an object is refused with exactly the email field's issues followed by the password field's |
| LoginRoute.FailureMessage | app/api/admin/login/route.ts:22 | the backend's message when non-empty, otherwise "Login failed" |
| LoginRoute.Post | app/api/admin/login/route.ts:10-32 | sign-in is attempted iff the body validates and the env is present; 200 iff a session came back with no error; 401 for a failed attempt; 400 otherwise, carrying the JSON parse error, the schema issues or the env message exactly |
| LoginRoute.EmptyObjectNamesBothFields | app/api/admin/login/route.ts:5-30 | an empty object is refused with 400 listing `email` then `password` as required, and no sign-in |
| LoginRoute.ShortPasswordRefused | app/api/admin/login/route.ts:7 | a password shorter than six code units is refused with 400 before any sign-in |
| Crm.Refresh | components/admin/admin-dashboard.tsx:153-183 | unconfigured: only the error changes; a successful reload replaces all three tables and clears the error; a failed one keeps the tables and shows its message |
| Crm.Blank | components/admin/admin-dashboard.tsx:243-246 | an optional field is stored as null iff it is blank, else trimmed |
| CrmColumns.LeadsByStage | components/admin/admin-dashboard.tsx:142-151 | one column per stage id and per lead's stage id; each column holds that stage's leads in order |
| CrmColumns.ColumnsPartitionLeads | components/admin/admin-dashboard.tsx:142-151 | every lead appears in its own stage's column exactly as often as in the list, and in no other column |
| CrmColumns.ColumnSize | components/admin/admin-dashboard.tsx:145-149 | a column and the leads outside it together account for every lead |
| CrmColumns.FindStageIdFromOverId | components/admin/admin-dashboard.tsx:497-501 | the drop target is an id iff some stage has that id, and then it is that id |
| CrmColumns.ResolveDrop | components/admin/admin-dashboard.tsx:517-525 | a drop is acted on iff there is a target, the dragged lead exists, the target is a stage and it is not the lead's current stage |
| CrmColumns.DragEndAsWritten | components/admin/admin-dashboard.tsx:508-537 | the handler as written always ends the drag |
| CrmColumns.DragEndAsWrittenLosesError | components/admin/admin-dashboard.tsx:531-534 | a failed move followed by a successful reload leaves no error on screen |
| CrmColumns.DragEnd | components/admin/admin-dashboard.tsx:508-537 | the corrected handler of "## Findings": ends the drag; an ignored drop changes nothing; an acted-on drop issues one stage update and moves the lead optimistically; on failure it reloads, so the board becomes the reloaded tables and the optimistic move is rolled back, and then shows the failure message, which lines 531-534 as written lose to the reload |
| CrmColumns.FailedDropRollsBack | components/admin/admin-dashboard.tsx:528-535 | after a failed stage update and a successful reload, the board holds exactly the reloaded tables, shows the failure message and keeps its view |
| CrmColumns.FindLead | components/admin/admin-dashboard.tsx:521 | finds the first lead with the id, and none iff no lead has it |
| CrmColumns.Move | components/admin/admin-dashboard.tsx:528 | the lead with the id moves to the target stage; every other lead, and the order, stay |
| CrmColumns.DropMovesOnlyDraggedLead | components/admin/admin-dashboard.tsx:528 | a successful move changes only the dragged lead's stage |
| CrmColumns.DropKeepsStagesReferenced | components/admin/admin-dashboard.tsx:524-528 | if every lead sat in an existing stage before a drop, it still does afterwards |
| CrmColumns.LeadIdIsNoTarget | components/admin/admin-dashboard.tsx:497-500 | dropping onto a lead card rather than a column does nothing |
| CrmStages.FindNewLeadStage | components/admin/admin-dashboard.tsx:303 | finds the first stage named "new lead" in any case |
| CrmStages.FirstOfLeastPosition | components/admin/admin-dashboard.tsx:304 | the first stage of least position, as a stable sort puts first |
| CrmStages.ChooseStage | components/admin/admin-dashboard.tsx:302-304 | none iff there are no stages; the "New Lead" stage when one exists, else the first stage of least position, as the stable sort picks |
| CrmStages.ChooseStageExamples | components/admin/admin-dashboard.tsx:302-304 | a "New Lead" stage wins regardless of position; ties on position go to the earlier stage |
| CrmStages.ConvertedRow | components/admin/admin-dashboard.tsx:310-321 | the new lead copies the inquiry's names, email, phone and message and links back to it |
| CrmStages.Convert | components/admin/admin-dashboard.tsx:292-350 | needs a configuration and a stage; inserts the lead, then marks the inquiry converted; switches to the CRM view and reloads only when both writes succeed |
| CrmStages.FromDraft | components/admin/admin-dashboard.tsx:229-247 | names are trimmed; each optional field becomes null when blank and is trimmed otherwise |
| CrmStages.CreateLead | components/admin/admin-dashboard.tsx:455-495 | blank names do nothing; no stages is an error; otherwise one insert into the chosen stage, then a reload on success |
| CrmStages.CreatedLeadHasNames | components/admin/admin-dashboard.tsx:461-463 | a lead is only ever inserted with non-empty first and last names |
| CrmStages.NextPositionIsFresh | components/admin/admin-dashboard.tsx:391 | for stages sorted by position, a new stage is placed after all of them |
| CrmStages.NextPositionUsesLast | components/admin/admin-dashboard.tsx:391 | the next position follows the last stage in list order, not the largest position |
| CrmStages.NextPosition | components/admin/admin-dashboard.tsx:391 | position 1 on an empty board, else one past the last stage in list order |
| CrmStages.AddStage | components/admin/admin-dashboard.tsx:379-401 | a blank name does nothing; otherwise the trimmed name is inserted at the next position and the board reloads on success |
| CrmStages.RenameStage | components/admin/admin-dashboard.tsx:403-426 | a blank name does nothing; otherwise one rename to the trimmed name, and a reload on success |
| CrmStages.DeleteStage | components/admin/admin-dashboard.tsx:428-453 | a stage that still holds leads is refused with an error; a stage is deleted only when no lead sits in it |
| CrmLeads.EditDraft | components/admin/admin-dashboard.tsx:203-214 | the edit form shows the stored names and each optional field or `""` |
| CrmLeads.ReopenAndSaveIsIdentity | components/admin/admin-dashboard.tsx:203-247 | opening a normalised lead and saving it unchanged writes back the same details |
| CrmLeads.SaveNormalizes | components/admin/admin-dashboard.tsx:229-247 | whatever is saved is normalised: names trimmed and non-empty, optional fields null or trimmed and non-blank |
| CrmLeads.ReplaceDetails | components/admin/admin-dashboard.tsx:252 | only the edited lead's details change; its id, stage and inquiry link and all other leads stay |
| CrmLeads.SaveLead | components/admin/admin-dashboard.tsx:221-260 | blank names are refused with a message; otherwise one update; success replaces the lead's details locally without a reload |
| CrmLeads.DeleteLead | components/admin/admin-dashboard.tsx:262-290 | one delete; on success the board equals the old one with the error cleared, the lead removed and its linked inquiries removed, everything else (stages, view, active drag, configuration) unchanged |
| CrmLeads.DeletedLeadLeavesNoTrace | components/admin/admin-dashboard.tsx:276-281 | after a successful delete no lead has that id and no inquiry points at it |
| CrmLeads.DeleteInquiry | components/admin/admin-dashboard.tsx:352-377 | one delete; on success the board equals the old one with the error cleared and exactly that inquiry removed, and its linked lead removed when it has one; everything else unchanged |
| CrmViews.Unconverted | components/admin/admin-dashboard.tsx:539-542 | holds exactly the inquiries not yet converted |
| CrmViews.UnconvertedAppend | components/admin/admin-dashboard.tsx:539-542 | the filter distributes over concatenation |
| CrmViews.UnconvertedComplementsConverted | components/admin/admin-dashboard.tsx:539-542 | unconverted and converted inquiries together account for all of them |
| CrmViews.Recent | components/admin/admin-dashboard.tsx:544 | the first five inquiries, or all of them when there are fewer |
| CrmViews.ComputeMetrics | components/admin/admin-dashboard.tsx:569-579 | counts match the tables; the rate is 0 without inquiries, never exceeds 100, and lies within half a point of the exact percentage |
| Crm.Filter | components/admin/admin-dashboard.tsx:276-281 | the kept elements are exactly those of the input that pass the test |
| Crm.FilterAppend | components/admin/admin-dashboard.tsx:539-542 | filtering keeps order: it distributes over concatenation |
| Crm.FilterCount | components/admin/admin-dashboard.tsx:276-281 | filtering keeps multiplicity: a passing element occurs as often as in the input, a failing one not at all |

## Left out

- Rendering, styling, animation and the dialog open/close state are not modelled. The busy flag, logout, the monthly inquiry chart, date formatting, drag start and the drag sensors are not modelled either. None of them affects the data or the responses.
- Network and platform calls are outcome parameters: Supabase queries and auth, the OpenAI call, `fetch`, `Date.now`, environment variables and cookies. The chat route's fixed system prompt is not part of this model.
- The zod email regex and the WHATWG URL hostname parser are parameters (`Schema.EmailTest`, `ChatRender.HostOf`).
- The texts of the `TypeError`s V8 raises for a null message or a null part are fixed constants standing in for the engine's wording.
- The chat route is not connected to the rate limiter in the source; the model keeps them separate.
- Non-string chat parts and a non-string `content` collapse into the empty text; the widget's own markup for user messages is not modelled.
- The contact form and the login page form are client wrappers around the two API routes and are not modelled.
- Text.ToLower: maps only ASCII letters, because the one comparison it serves is against the ASCII text "new lead".
- CrmViews.RoundHalfUp: rounds the exact ratio half up, where the dashboard rounds the double `converted / total * 100`; the two can differ only where that double falls just below a `.5` boundary. `ComputeMetrics` states only the half-point bound, which both roundings meet.
- Binary64.CeilTenthAtMost: proved only for sizes below 2^53, the range where the map size is an exact double.
- Binary64.CeilTenthBelow: proved only for sizes below 2^53, for the same reason; so is RateLimit.EvictionLeavesOne.
- RateLimit.AdmittedTokenSurvives: proved only for a `uniqueTokenPerInterval` from 1 to below 2^53 - 1, so that a map one key over the bound still has an exact double size. A bound of 0 evicts the token at once, as RateLimit.AdmittedTokenEvictedWithoutRoom shows.
- RateLimit.BurstAdmitsUpToLimit: the full-map case (no room, new token) carries the same bound on `uniqueTokenPerInterval`; the case with room has no such limit.
- ChatRender.DisplayName: when the hostname contains `www.` the result is not pinned down; the first-occurrence replacement is still modelled in the body.
- ChatWidget.Finish: a JSON body that is not an object, and a truthy `content` or `error` that is not a string, are treated as if the field were absent. The source would show the value's string form, or for a null body raise a `TypeError` whose text is engine-specific.
- RateLimit.Check: the cache after an admission is stated through `Cleanup`; the per-token facts are in `RateLimit.CheckKeepsMap`.

## Findings

| source | as written | input that shows it | evidently intended | confidence | as-written member | corrected member |
|---|---|---|---|---|---|---|
| components/admin/admin-dashboard.tsx:531-534 | after a failed stage update, `onDragEnd` shows the message and then calls `refreshAll`, which clears the error first (line 160) | a drag whose update fails, followed by a reload that succeeds | the failure message stays visible after the board is reloaded | medium, not executed | CrmColumns.DragEndAsWritten | CrmColumns.DragEnd |
