# WhatsApp dispatch route, modelled in Dafny

This project models `POST /api/whatsapp`, the route that sends a templated WhatsApp message to a user of an
organisation and records the delivery. The model has two parts.

- **Dispatch chain** (`dispatch.dfy`). The route runs three checks in a fixed order and stops at the first
  failure: the template must exist, the recipient must be opted in, and the recipient must have a WhatsApp
  number. It then fills in the template, mints a mock message id from the clock and writes one `sent` tracking
  row. Any exception ends in a handler that tries to log a `failed` row and answers 500.
  - Each database round trip and each clock reading is an input of `Dispatch.Dispatch`: the request body, the
    three single-row lookups, the tracking insert's success, the body read again by the error handler, whether
    the store took the failed row, and the timestamps.
  - The outcome is the response, the tables looked up and the delivery rows written.
- **Template interpolation** (`placeholder.dfy`, `interpolation.dfy`, `render.dfy`). For every parameter entry
  the route replaces, globally, the pattern `{{`, optional white space, the key, optional white space, `}}`
  with the value.
  - `Placeholder.MatchPrefix` is one attempt of that regular expression, including the backtracking of the
    leading `\s*`. It is proved to find exactly the placeholders for the key.
  - `Interpolation.ReplaceAll` is the global replacement as a scan. It is proved equal to the ECMAScript
    definition: the leftmost non-overlapping matches (`Occurrences`), with the text between them kept
    (`Splice`).
  - `Templating.RenderMessage` is the route's loop, proved against the fold `Templating.Interpolate`.
- **Message ids** (`decimal.dfy`). The id is a fixed prefix followed by the decimal numeral of `Date.now()`.

Two preconditions govern the interpolation. Each key must contain no regular-expression syntax character
(`SafeKey`), because the route builds the pattern from the key without escaping it. Each value must contain no
`$` (`PlainValue`), because `replace` would read `$` as the start of a replacement pattern. Under these two
conditions the model is exact. `Dispatch.Ready` asks for them only when the interpolation step is reached.

Two behaviours of the code are worth stating plainly. The model follows the code in both.
- Message ids come from the millisecond clock, so two sends in the same millisecond get the same id
  (`Dispatch.IdsFollowTheClock`). The id is a mock one, standing in for a provider's id while the send is a
  stub (`src/app/api/whatsapp/route.ts:60-64`).
- A rejected tracking insert is answered with a 500 `Failed to track delivery`, and no `failed` row is
  logged. The route returns at that point instead of throwing (`src/app/api/whatsapp/route.ts:75-77`). The
  handler whose comment promises to log the error in delivery tracking if possible
  (`src/app/api/whatsapp/route.ts:81`) is therefore never reached (`Dispatch.TrackingRejected`).

## Model

| member | source | states |
|---|---|---|
| Placeholder.SpaceRun | src/app/api/whatsapp/route.ts:56 | the greedy `\s*` run starting at an index stays within the text |
| Placeholder.CloseAfter | src/app/api/whatsapp/route.ts:56 | the tail `key\s*}}` after the opening, when it matches, ends within the text and after the key and `}}` |
| Placeholder.TryOpening | src/app/api/whatsapp/route.ts:56 | the backtracking of the leading `\s*`, from the longest run down to none; a match it reports ends within the text |
| Placeholder.MatchPrefix | src/app/api/whatsapp/route.ts:56 | one attempt of the pattern at the front of a text; a match is at least four characters and opens with `{{` |
| Placeholder.SpaceRunSpec | src/app/api/whatsapp/route.ts:56 | the greedy `\s*` run consumes only white space and stops at the first other character |
| Placeholder.CloseAfterSpec | src/app/api/whatsapp/route.ts:56 | a successful `key\s*}}` tail is the key, then white space, then `}}` |
| Placeholder.TryOpeningSound | src/app/api/whatsapp/route.ts:56 | whichever length the backtracking leading `\s*` settles on, the match is a placeholder for the key |
| Placeholder.MatchPrefixSound | src/app/api/whatsapp/route.ts:56 | every match the regular expression reports at the front of a text is a placeholder for the key |
| Placeholder.TryOpeningComplete | src/app/api/whatsapp/route.ts:56 | backtracking from the longest white-space run never misses a placeholder whose leading white space is shorter |
| Placeholder.CloseAfterComplete | src/app/api/whatsapp/route.ts:56 | after the leading white space of a placeholder, the tail matcher finds exactly the placeholder's end |
| Placeholder.MatchPrefixExact | src/app/api/whatsapp/route.ts:56 | the regular expression matches the first `n` characters exactly when they form a placeholder for a safe key (both directions) |
| Placeholder.MatchPrefixFinds | src/app/api/whatsapp/route.ts:56 | a placeholder at the front of a text, with any white space around the key, is found with its exact length |
| Placeholder.PlaceholderShape | src/app/api/whatsapp/route.ts:56 | a placeholder for a safe key opens with `{{`, closes with its only `}}`, and has no other `{` |
| Placeholder.PlaceholderEndUnique | src/app/api/whatsapp/route.ts:56 | at most one prefix of a text is a placeholder for a safe key |
| Placeholder.PlaceholdersDisjoint | src/app/api/whatsapp/route.ts:56 | no placeholder for a safe key starts strictly inside another, so matches never overlap |
| Placeholder.OtherNameNotPlaceholder | src/app/api/whatsapp/route.ts:56 | `{{name}}` for another name without white space is not a placeholder for the key |
| Placeholder.OtherNameNoMatch | src/app/api/whatsapp/route.ts:56 | the regular expression finds nothing at the front of `{{name}}…` for another safe name without white space, e.g. `{{nametag}}` for key `name` |
| Placeholder.PlainPlaceholder | src/app/api/whatsapp/route.ts:56 | `{{key}}` without white space is a placeholder for the key |
| Placeholder.OtherPlaceholderNoMatch | src/app/api/whatsapp/route.ts:56 | at a placeholder for another safe name that is not also a placeholder for the key, with or without inner white space, the regular expression finds nothing, whatever follows |
| Placeholder.PlaceholderNamesOneKey | src/app/api/whatsapp/route.ts:56 | a placeholder, whatever white space it has inside its braces, is a placeholder for at most one key without white space: `{{ venue }}` is one for `venue` and for no other such key |
| Interpolation.ReplaceAll | src/app/api/whatsapp/route.ts:56 | one global `replace` pass as a left-to-right scan (no contract of its own; `ReplaceAllSplices` states what it computes) |
| Interpolation.LeftmostAscending | src/app/api/whatsapp/route.ts:56 | the leftmost matches a global search reports are in order, within the text, and do not overlap |
| Interpolation.Occurrences | src/app/api/whatsapp/route.ts:56 | the matches the global search collects are ascending spans of the text |
| Interpolation.NoMatchNoPlaceholder | src/app/api/whatsapp/route.ts:56 | where the matcher fails, no placeholder for the key starts |
| Interpolation.MatchIsPlaceholder | src/app/api/whatsapp/route.ts:56 | where the matcher succeeds, the matched span is a placeholder for the key |
| Interpolation.OccurrencesLeftmost | src/app/api/whatsapp/route.ts:56 | the global search reports exactly the leftmost non-overlapping placeholders, each starting at the first possible index after the previous one |
| Interpolation.ReplaceAllSplices | src/app/api/whatsapp/route.ts:56 | the scan equals the ECMAScript global replace: the text between the leftmost matches kept, each match replaced by the value |
| Interpolation.LeftmostUnique | src/app/api/whatsapp/route.ts:56 | the leftmost non-overlapping placeholders of a text are unique: two lists that both satisfy the leftmost-match conditions are equal |
| Interpolation.ReplaceAllIsSplice | src/app/api/whatsapp/route.ts:56 | for any list of spans that meets the leftmost-match conditions, the pass keeps the text between the spans and replaces each span by the value |
| Interpolation.ReplaceAllWithoutPlaceholder | src/app/api/whatsapp/route.ts:56 | a text with no placeholder for the key is returned unchanged |
| Interpolation.ReplaceAllWithoutBraces | src/app/api/whatsapp/route.ts:56 | whatever the key, a text without `{{` is returned unchanged |
| Interpolation.ReplaceAllAfterText | src/app/api/whatsapp/route.ts:56 | text without `{` is copied and replacement continues after it |
| Interpolation.ReplaceAllAfterPlaceholder | src/app/api/whatsapp/route.ts:56 | a leading placeholder for the key becomes the value and replacement continues after it |
| Interpolation.ReplaceAllWhole | src/app/api/whatsapp/route.ts:56 | a text that is one placeholder for the key becomes the value |
| Interpolation.ReplaceAllAfterOtherPlaceholder | src/app/api/whatsapp/route.ts:56 | a leading placeholder for another name that the key's pattern does not match, with or without inner white space (`{{ venue }}` for key `name`), is copied verbatim and replacement continues after it |
| Interpolation.ReplaceAllAfterOtherName | src/app/api/whatsapp/route.ts:56 | a leading placeholder `{{name}}` for another name without white space is copied verbatim and replacement continues after it |
| Interpolation.ReplaceAllAroundOtherName | src/app/api/whatsapp/route.ts:56 | wherever a placeholder for another name that the key's pattern does not match stands, with or without inner white space, a pass keeps it verbatim and replaces independently on both sides of it |
| Interpolation.ReplaceAllCut | src/app/api/whatsapp/route.ts:56 | a text cut just before a `{{` is replaced piece by piece: no match starting before the cut reaches past it |
| Templating.Interpolate | src/app/api/whatsapp/route.ts:55-56 | the loop as a fold: one global pass per entry, in entry order (no contract of its own; the lemmas below state what it computes) |
| Templating.Render | src/app/api/whatsapp/route.ts:53-58 | outcome of the interpolation step: the body unchanged for non-object or empty parameters; the TypeError of `replace` on a null body; otherwise the fold of the passes |
| Templating.RenderMessage | src/app/api/whatsapp/route.ts:53-58 | the route's loop, reassigning `message` once per entry, yields exactly `Render`'s outcome |
| Templating.InterpolateSnoc | src/app/api/whatsapp/route.ts:55-56 | the passes run in entry order: the last entry's replacement applies to the result of all earlier ones |
| Templating.InterpolateWithoutBraces | src/app/api/whatsapp/route.ts:53-58 | a body without `{{` comes out of every pass unchanged |
| Templating.RenderUnchanged | src/app/api/whatsapp/route.ts:53-58 | with non-object or empty parameters, or a body without `{{`, the message is the stored body exactly |
| Templating.RenderThrowsOnlyOnNull | src/app/api/whatsapp/route.ts:53-58 | interpolation raises exactly when the body is null and there is at least one entry |
| Templating.InterpolateAroundOtherName | src/app/api/whatsapp/route.ts:55-56 | a placeholder that no entry's pattern matches, with or without inner white space, survives the whole loop verbatim, and the loop acts independently on the text before and after it |
| Templating.UnlistedPlaceholderKept | src/app/api/whatsapp/route.ts:55-56 | with keys free of white space, a placeholder `{{ name }}` with any inner white space whose name is no entry's key survives the loop verbatim |
| Templating.InterpolateWithoutPlaceholder | src/app/api/whatsapp/route.ts:55-56 | a body containing no placeholder for any entry's key comes out of the loop unchanged |
| Templating.FirstValue | src/app/api/whatsapp/route.ts:55-56 | the value of the first entry for a name is one of the entries for it; no value means no entry has that key |
| Templating.ResolveAllPointwise | src/app/api/whatsapp/route.ts:55-56 | resolving a template resolves each segment on its own and keeps their number |
| Templating.ReplaceAllTemplate | src/app/api/whatsapp/route.ts:56 | on a template of text without `{` and placeholders without inner white space, one pass fills every placeholder for its key with the value and keeps everything else |
| Templating.ResolveInTurn | src/app/api/whatsapp/route.ts:55-56 | resolving with one entry and then with the rest is resolving with all entries, the first one winning |
| Templating.InterpolateTemplate | src/app/api/whatsapp/route.ts:55-56 | on such a template, with values that bring in no `{`, the loop fills every placeholder with the value of the first entry for its name and keeps placeholders without an entry, and the text between, verbatim |
| Templating.InvitationText | src/app/admin/whatsapp-template-management/page.tsx:80 | the template `Invitation` is the text `Hello {{name}}, you are invited to our event on {{date}} at {{venue}}.` |
| Templating.InvitationExample | src/app/admin/whatsapp-template-management/page.tsx:80 | that template with `name`, `date` and `venue` entries renders as `Hello Ada, you are invited to our event on May 1 at the Town Hall.`; without a `venue` entry, `{{venue}}` stays |
| Templating.ShortInvitationExample | src/app/api/whatsapp/route.ts:55-56 | `Hello {{name}}, you are invited on {{date}}.` with `name = Ada` and `date = May 1` renders as `Hello Ada, you are invited on May 1.` |
| Templating.NametagExample | src/app/api/whatsapp/route.ts:56 | the key `name` leaves `{{nametag}}` verbatim |
| Templating.ChainedPlaceholders | src/app/api/whatsapp/route.ts:55-56 | a placeholder brought in by an earlier entry's value is filled by a later entry |
| Decimal.NatToString | src/app/api/whatsapp/route.ts:64 | the timestamp in an id is a non-empty string of decimal digits |
| Decimal.ValueOfNatToString | src/app/api/whatsapp/route.ts:64 | reading the numeral back gives the timestamp |
| Decimal.NoLeadingZero | src/app/api/whatsapp/route.ts:64 | the numeral starts with `0` only for zero |
| Decimal.NatToStringInjective | src/app/api/whatsapp/route.ts:64 | different timestamps have different numerals (both directions) |
| Dispatch.SuccessId | src/app/api/whatsapp/route.ts:64 | the send id: `mock-message-id-` followed by the millisecond count in decimal (its properties are in `IdsFollowTheClock` and `IdsDisjoint`) |
| Dispatch.FailureId | src/app/api/whatsapp/route.ts:86 | the failure id: `error-` followed by the millisecond count in decimal |
| Dispatch.OptedIn | src/app/api/whatsapp/route.ts:37 | the opt-in check passes exactly when the row was found and its `opted_in` is `true` |
| Dispatch.HasNumber | src/app/api/whatsapp/route.ts:48 | the number check passes exactly when the user was found and has a non-empty `whatsapp_number` |
| Dispatch.ErrorText | src/app/api/whatsapp/route.ts:89 | the logged error text is the exception's message when it is non-empty and `Unknown error` when it is missing or empty; it is never empty |
| Dispatch.LoggedUser | src/app/api/whatsapp/route.ts:87 | the `user_id` of the re-read body, or null when the body is not an object or has none |
| Dispatch.FailureRow | src/app/api/whatsapp/route.ts:85-91 | the handler's row: an `error-` id, the re-read `user_id`, status `failed`, the error text and the error time |
| Dispatch.Recover | src/app/api/whatsapp/route.ts:80-93 | the error handler answers 500 `Internal server error`; it writes one `failed` row under an `error-` id when the body can be read again and the store takes it, and nothing otherwise |
| Dispatch.Deliver | src/app/api/whatsapp/route.ts:53-79 | the steps after the checks: interpolation, the id, the tracking insert and the 200 answer, with the handler on a null body (no contract of its own; `DeliveredExactly`, `TrackingRejected` and `NullTemplateBody` state it) |
| Dispatch.Dispatch | src/app/api/whatsapp/route.ts:17-93 | at most one row is written, lookups follow the order template, opt-in, user, and the status is one of 200, 400, 403, 404, 500 |
| Dispatch.IdsFollowTheClock | src/app/api/whatsapp/route.ts:64 | two send ids (or two failure ids) are equal exactly when their timestamps are |
| Dispatch.IdsDisjoint | src/app/api/whatsapp/route.ts:86 | a failure id (`error-…`) never equals a send id (`mock-message-id-…`) |
| Dispatch.UnreadableBody | src/app/api/whatsapp/route.ts:17 | an unreadable or null body ends in the handler before any lookup, with the `failed` row (if stored) carrying the exception's text and the re-read `user_id` |
| Dispatch.TemplateMissing | src/app/api/whatsapp/route.ts:20-28 | a missing template is a 404 `Template not found`, with no further lookup and no row |
| Dispatch.NotOptedInRejected | src/app/api/whatsapp/route.ts:31-39 | a found template with a missing opt-in row or falsy `opted_in` is a 403, with no user lookup and no row |
| Dispatch.NumberMissing | src/app/api/whatsapp/route.ts:42-50 | an opted-in recipient without a number is a 400 `User WhatsApp number not found`, with no row |
| Dispatch.FirstFailingCheckDecides | src/app/api/whatsapp/route.ts:26-50 | once a check fails, the outcome depends on nothing the later steps would have read |
| Dispatch.DeliveredExactly | src/app/api/whatsapp/route.ts:64-79 | success comes exactly when all checks pass, interpolation does not raise and tracking succeeds; then one `sent` row with a null error, the request's `user_id` and the answered `mock-message-id-` id is written |
| Dispatch.TrackingRejected | src/app/api/whatsapp/route.ts:75-77 | a rejected tracking insert is a 500 `Failed to track delivery` with no row written |
| Dispatch.NullTemplateBody | src/app/api/whatsapp/route.ts:53-56 | a null template body with parameters ends in the handler, which logs the TypeError's message |
| Dispatch.LoggingDoesNotChangeAnswer | src/app/api/whatsapp/route.ts:82-93 | whether the handler's re-read and insert succeed never changes the response |
| Dispatch.AnswersAndRows | src/app/api/whatsapp/route.ts:17-93 | every answer is one of the route's six; every `sent` row goes with the 200 answer and its id; every `failed` row goes with the 500 internal error and a non-empty error text |

## Left out

- The database and request plumbing: `createServerClient`, `cookies()` and the query builder. Each lookup is a
  `Found`/`Missing` input and each insert's success is a boolean. The model assumes these calls return rather
  than throw. It also assumes the client creation before the `try` succeeds.
- The arguments of the lookups (`template_id`, `user_id`) and `trust_id`. The lookup results are inputs for
  this request, and `trust_id` is read but never used by the route.
- `Date.now()` and `new Date().toISOString()`: the millisecond counts are `nat` inputs and the ISO strings are
  opaque inputs.
- The message itself is never sent, because the provider call is a stub. The rendered text therefore matters to
  the outcome only through whether interpolation raises.
- The regular-expression engine beyond safe keys. A key with syntax characters (`.`, `(`, `*`, …) either
  matches other text or makes `new RegExp` throw. `Templating.Interpolate` and `Dispatch.Dispatch` require
  `SafeKey` for every key.
- `$` replacement patterns in values (`$&`, `$1`, `$$`, …). `Templating.Interpolate` and `Dispatch.Dispatch`
  require `PlainValue` for every value.
- `String(value)` and `Object.entries` are not modelled. Parameters arrive as string pairs in enumeration order.
  A value whose conversion throws is not modelled.
- `Dispatch.NullTemplateBody` and `Dispatch.UnreadableBody`: the TypeError texts are fixed constants standing
  for the engine's messages. Only their being non-empty matters to the logged row.
- The re-read of the body in the error handler is an input that may fail. In practice a consumed body cannot be
  read twice.
- Strings are sequences of Unicode scalar values, while JavaScript strings are sequences of UTF-16 code units.
  A lone surrogate (JSON `"\ud800"`) cannot be represented. Matching is otherwise unaffected: a key read
  literally matches the same text whether compared by code units or by scalar values, and every white-space
  character lies in the Basic Multilingual Plane.
- `Templating.InterpolateTemplate` covers templates whose text has no `{`, whose placeholders have no inner
  white space, and whose values bring in no `{`. A placeholder with inner white space is covered one pass at a
  time: filled by `Interpolation.ReplaceAllAfterPlaceholder`, and kept when it has no entry by
  `Templating.UnlistedPlaceholderKept`. A value that introduces a placeholder filled by a later entry is
  covered separately by `Templating.ChainedPlaceholders`.
- `src/actions/whatsappActions.ts` and `src/app/admin/whatsapp-template-management/page.tsx` are not part of
  this model. They are thin wrappers over the database and the provider, and a form. The one thing taken from
  the form is its example template text (`page.tsx:80`), used in `Templating.InvitationExample`.
