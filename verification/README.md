# Looooooty web: forms, bases and the application review, in Dafny

This project models the data-handling core of the Looooooty web server
(`src/server.js`). That core has three parts:

- **Base-status registry.** A list of bases, each open, "open but less
  likely to be used" or closed. Staff edit it, and the public bases page
  shows it.
- **Application-form registry.** The application types staff define: a
  name, the Discord guild and role that an approval grants, and a list of
  custom questions.
- **Base-member applications.** The public apply form and the staff
  create form append records. Staff approve a record, which asks the
  Discord bot to grant the form's role, or reject it, which commits the
  rejection and then asks the bot to message the applicant.

Each collection is a JSON file. Every handler loads the file, normalises
the records it finds (and writes them straight back: *read-repair*),
transforms them and saves them. Here each file is a `Stored<T>`: missing,
not an array, or an array of raw records whose fields are optional JSON
values. Each load is a total function to normalised records. Each handler
is a function from the three files before the request to the files
after it and the outcome it reports.

Modules:

- `JsValues` (js_values.dfy) defines the JavaScript built-ins the code
  relies on, over a small JSON value type: `String(x)`, `x || y`,
  `.trim()`, `.slice(0, n)`, `.toLowerCase()` and decimal numerals.
- `Inputs` (inputs.dfy) holds `toStringArray` and `isSnowflake`.
- `Slugs` (slugs.dfy) holds the slugging and smallest-free-suffix search
  shared by `makeBaseId` and `makeApplicationFormId`.
- `Storage` (storage.dfy) defines the file contents and the handlers'
  refusals.
- `Settings` (config.dfy) holds the environment settings and their
  defaults.
- `Bases`, `Forms` and `Applications` hold each registry's records,
  normalisation, load and save, and the pure transformations the handlers
  apply.
- `Bot` (bot.dfy) holds the decisions of `approveInBot` and
  `notifyDecisionInBot`. The bot's reply is an input.
- `Server` (server.dfy) defines the handlers as transitions of the three
  files.

Inputs the program takes from its environment become parameters:

- the current time (`now`) and the fresh application id;
- the staff user name from the session cookie (`staffUser`);
- the environment settings (`Config`);
- the bot's HTTP reply (`Reply`).

## Model

| member | source | states |
|---|---|---|
| JsValues.Clip | src/server.js:154 | `String(x).trim().slice(0, n)` is at most n characters and never starts with white space |
| JsValues.ClipClipSettles | src/server.js:154-158 | clipping twice gives a trimmed string that every later clip leaves unchanged; a single clip may still end in a space, because trimming happens before slicing |
| JsValues.NatToStringInjective | src/server.js:154-159 | different indexes give different numerals, so the numbered default ids and suffixes are distinct |
| JsValues.IndexNumeralShort | src/server.js:154 | the numeral of an array index (below 2^32 - 1) has at most ten digits, which keeps fallback names within their length bounds |
| Inputs.ToStringArray | src/server.js:312-317 | every element is non-empty, not blank, and at most maxLen long; there are never more elements than input values |
| Inputs.CompactAppend | src/server.js:316 | `filter(Boolean)` distributes over concatenation, so the surviving strings keep their relative order |
| Inputs.ToStringArrayOfClean | src/server.js:312-317 | a submitted list of already clean strings comes back unchanged |
| Inputs.ToStringArrayDropsBlank | src/server.js:312-317 | a blank entry anywhere is dropped, and the entries after it move up one place |
| Inputs.MatchDigitRun | src/server.js:320 | scanning the string accepts exactly the strings of 17 to 20 ASCII digits |
| Inputs.CheckSnowflake | src/server.js:319-321 | `isSnowflake` holds iff the trimmed text is 17 to 20 ASCII digits |
| Slugs.Slug | src/server.js:180-186 | only a-z, 0-9 and the separator; at most 40 characters; starts with a letter or digit; empty iff the text has no lower-case ASCII letter or digit |
| Slugs.SlugRoot | src/server.js:180-187 | the root is never empty: it is the slug when the text has a letter or digit, and the fallback otherwise |
| Slugs.SlugOfSlug | src/server.js:180-186 | slugging a well-formed slug gives it back |
| Slugs.CandidatesBound | src/server.js:188-193 | at most as many numbered candidates can be in use as there are used ids, which bounds the search loop |
| Slugs.FirstFree | src/server.js:188-193 | the search stops at the first free candidate, at most \|used\| + 1, and every earlier candidate is in use |
| Slugs.FreeId | src/server.js:186-194 | the id is not in use; it is the root when the root is free; otherwise it is root + separator + the smallest n >= 2 whose candidate is free |
| Slugs.FreeIdChars | src/server.js:186-194 | the generated id contains only slug characters and the separator |
| Slugs.SearchFreeId | src/server.js:188-194 | the `while` loop terminates and returns the same id as `FreeId` |
| Settings.FromEnv | src/server.js:10-22 | both bot URLs are never empty; the secret, guild id and base-member role are empty iff their variable is unset or empty |
| Bases.NormalizeBaseState | src/server.js:146-151 | `open_less` and `closed` map to themselves and anything else to open, in both directions |
| Bases.StateName | src/server.js:146-151 | the stored spelling of a state is one of the three names and normalises back to that state |
| Bases.NormalizeBaseEntry | src/server.js:153-161 | the id is non-empty over [a-z0-9_-]; the name is non-empty with no leading space and, for an array index, at most 60 characters; the state is the normalised stored state |
| Bases.BaseId | src/server.js:155-157 | the id part is always a valid id |
| Bases.BaseName | src/server.js:154-158 | the name part is non-empty, has no leading space, and is short and clip-stable for an array index |
| Bases.NormalizeValid | src/server.js:153-161 | normalising the stored form of a valid base keeps its id and state and clips its name |
| Bases.NormalizeSettled | src/server.js:153-161 | a base with a short trimmed name is normalised to itself |
| Bases.DefaultBases | src/server.js:138-144 | six open bases whose ids are distinct and whose names need no repair |
| Bases.LoadBases | src/server.js:163-173 | a missing, non-array or empty file loads as the defaults; otherwise there is one valid base per entry, with the entry's normalised state |
| Bases.ReloadValid | src/server.js:163-177 | reading back written valid bases keeps ids and states and re-clips names |
| Bases.SaveLoadRoundTrip | src/server.js:163-177 | saving bases whose names need no repair and loading them again gives them back |
| Bases.ReadRepairSettles | src/server.js:163-173 | read-repair converges: from the second load on, the file is read back unchanged |
| Bases.SaveLoadKeepsIdsAndStates | src/server.js:163-177 | saving valid bases and loading them again keeps every id and state in place |
| Bases.UpdateBases | src/server.js:1230-1236 | each base keeps its id, name and place and takes the normalised state submitted under `state_<id>`; the set of ids, their distinctness, and each base's validity and settledness are unchanged |
| Bases.UpdateSaveLoadStates | src/server.js:1230-1237 | after the update is saved and loaded again, every base keeps its id and place and has the normalised submitted state |
| Bases.UpdateWithCurrentStates | src/server.js:394-404 | submitting the bases editor unchanged leaves every base as it was |
| Bases.MakeBaseId | src/server.js:179-195 | the new id is valid and unused; it is the slug root when that is free, and otherwise root + `_` + the smallest n >= 2 whose candidate is unused (every earlier candidate is in use) |
| Bases.CreateBase | src/server.js:1241-1252 | a blank name is refused; otherwise exactly one open, valid base with a fresh id is appended, the existing bases are kept, and distinct ids stay distinct |
| Bases.CreateBaseSaveLoadDistinct | src/server.js:1241-1252 | after the save and the next load there is one more base and the ids are still distinct |
| Forms.NormalizeForm | src/server.js:214-236 | a valid form: non-empty trimmed id; non-empty name of at most 80 characters for an array index; clean questions no more numerous than the stored ones; `active` false iff stored exactly false; `createdAt` is the stored value exactly when that is truthy, otherwise the current time |
| Forms.FormId | src/server.js:217-228 | the id part is non-empty and trimmed |
| Forms.FormName | src/server.js:215-229 | the name part is non-empty with no leading space, and at most 80 characters for an array index |
| Forms.NormalizeSettledForm | src/server.js:214-236 | a settled form is normalised to itself at any index |
| Forms.DefaultForms | src/server.js:238-274 | the Base Member and VIP forms with their built-in questions and roles, active, in the configured guild or the built-in one |
| Forms.DefaultFormsValid | src/server.js:238-274 | both built-in forms are valid (every built-in question is clean) and their ids differ |
| Forms.LoadForms | src/server.js:276-286 | a missing, non-array or empty file loads as the two built-in forms; otherwise one form per entry; every loaded form is valid, the built-in ones included, with `active` false iff stored exactly false, and names of at most 80 characters |
| Forms.SaveLoadFormsRoundTrip | src/server.js:276-290 | saving settled forms and loading them again gives them back |
| Forms.SaveLoadKeepsFormIds | src/server.js:276-290 | saving valid forms and loading them again keeps every id and `active` flag in place |
| Forms.FindFormIndex | src/server.js:1302 | `findIndex` by id (also at lines 1322 and 1339): returns the first index with that id, or none iff no form has it |
| Forms.FindForm | src/server.js:292-294 | none iff no form has that id; otherwise the FIRST form with that id, as `.find` returns it |
| Forms.FormIdRoot | src/server.js:297-302 | the root is a non-empty slug over a-z, 0-9 and `-`, at most 40 characters |
| Forms.MakeFormId | src/server.js:296-310 | the new id is unused and made of slug characters; it is the root when that is free, and otherwise root + `-` + the smallest n >= 2 whose candidate is unused (every earlier candidate is in use) |
| Forms.ValidateFormInput | src/server.js:1255-1271 | the checks run in order (name required, then guild id, then role id), each refusal in both directions; an accepted request has a short name, snowflake ids and clean questions |
| Forms.CreateForm | src/server.js:1273-1276 | exactly one active form is appended, with a fresh id and the submitted fields; distinct ids stay distinct |
| Forms.CreateFormSaveLoadDistinct | src/server.js:1273-1276 | after the save and the next load there is one more form and the ids are still distinct |
| Forms.UpdateForm | src/server.js:1298-1316 | an unknown id is refused; otherwise only the first match changes: its name, guild, role and questions are replaced, and its id, `active` and `createdAt` are kept |
| Forms.ToggleForm | src/server.js:1319-1334 | an unknown id is refused; otherwise only the first match changes, with `active` flipped |
| Forms.ToggleTwice | src/server.js:1319-1334 | toggling the same form twice restores the registry |
| Forms.FindAfterFieldChange | src/server.js:1321-1329 | changing fields other than the id of the first match leaves it the first match |
| Forms.DeleteForm | src/server.js:1336-1348 | an unknown id is refused; otherwise exactly the first match is removed, the rest keep their order, and with distinct ids the id is gone |
| Bot.GrantGuild | src/server.js:1023 | the grant guild is `targetGuildId || guildId || GUILD_ID`, trimmed: the target guild when set, else the stored guild when set, else the configured one |
| Bot.ApproveRequest | src/server.js:1018-1034 | no request without URL and secret, or without a target guild (with the matching messages); otherwise the request carries that guild, the user, the application id, the form name, and the role (omitted iff there is neither target role nor default role) |
| Bot.Classify | src/server.js:1036-1061 | success iff HTTP ok and the body's `ok` is exactly true; a failure carries the body's error when there is one, otherwise the HTTP status message; a thrown fetch gives the connection message |
| Bot.ApproveInBot | src/server.js:1018-1062 | succeeds iff a request is sent and the reply succeeds, and then returns the reply body; a refusal before sending gives that refusal's message |
| Bot.NotifyPayload | src/server.js:1069-1077 | the notify payload carries the user, the application, the form name, the upper-cased status and the note; its guild is `targetGuildId || guildId || GUILD_ID` and its role `targetRoleId || BASE_MEMBER_ROLE_ID`, untrimmed |
| Bot.NotifyInBot | src/server.js:1064-1103 | succeeds iff URL and secret are set and the reply succeeds, and never carries a body |
| Bot.OnlySecretCanBeMissing | src/server.js:17-21 | with settings from the environment, the approve call stops on configuration iff the secret is unset |
| Applications.ReadApplicant | src/server.js:1130-1134 | form id and user id are trimmed; tag, Minecraft name and reason are at most 64, 32 and 1000 characters |
| Applications.MissingIffTooFew | src/server.js:1148-1154 | over compacted answers, the per-question check fails iff there are fewer answers than questions |
| Applications.Pad | src/server.js:1160-1162 | padding keeps the list as a prefix and fills up to n with empty strings |
| Applications.FitAnswers | src/server.js:1157-1162 | the answers are cut or padded to exactly n, and are a prefix of the originals when there were enough |
| Applications.GuildOrNull | src/server.js:1172 | the stored guild is `form.guildId || GUILD_ID`, and null iff both are empty |
| Applications.NewApplication | src/server.js:1170-1188 | the new record is pending with the fresh id and source; it copies the form's id and name and the applicant's user id, tag, Minecraft name and reason; takes guild and role from the form or the configuration; has both timestamps set to now and no review fields |
| Applications.PublicSubmission | src/server.js:1136-1188 | refusals in order, each in both directions: invalid user id, missing or inactive form, fewer answers than questions; an accepted record copies the form's questions and keeps exactly one answer per question |
| Applications.SubmittedAnswersComplete | src/server.js:1148-1188 | an accepted public record has as many answers as questions, all non-blank |
| Applications.StaffSubmission | src/server.js:1357-1386 | refusals for an invalid user id or an unknown form only (inactive forms are allowed); the record has source staff and no question or answer lists |
| Applications.FindApplicationIndex | src/server.js:1395 | returns the first index with that id, or none iff no record has it |
| Applications.ReviewTarget | src/server.js:1393-1405 | not found iff no record has the id; already reviewed iff the first match is not PENDING; otherwise the first match's index |
| Applications.Refresh | src/server.js:1407-1418 | role and guild are taken from the current form only when non-empty, the form name always, and nothing else changes |
| Applications.ApprovedRecord | src/server.js:1427-1434 | status APPROVED, `reviewedBy`, timestamps and the bot's reply body are set, and nothing else changes |
| Applications.RejectedRecord | src/server.js:1455-1461 | status REJECTED, `reviewedBy` and timestamps are set, and nothing else changes |
| Applications.FindAfterRecordChange | src/server.js:1395 | replacing the first match by a record with the same id keeps it the first match |
| Server.WithAppsLoaded | src/server.js:197-204 | the file is rewritten (as `[]`) iff it did not hold an array; the stored array is taken as it is, anything else loads as no applications, and loading what was written back gives the same list |
| Server.BasesUpdateHandler | src/server.js:1228-1239 | only the bases file changes; read back, every base keeps its id and place and has the normalised state submitted for it |
| Server.BasesCreateHandler | src/server.js:1241-1252 | the bases are loaded and rewritten before the name check; a blank name is refused with only that rewrite |
| Server.BasesCreateKeepsIdsDistinct | src/server.js:1241-1252 | creating a base adds exactly one and keeps distinct ids distinct in the file read back |
| Server.FormsCreateHandler | src/server.js:1254-1279 | a refused request leaves every file untouched (checks come before the load); otherwise the forms file holds the saved registry with the new form |
| Server.FormsCreateKeepsIdsDistinct | src/server.js:1254-1279 | creating a form adds exactly one and keeps distinct ids distinct in the file read back, including the first form created over a missing or empty file, where the built-in forms are loaded first |
| Server.FirstFormCreatedBesideDefaults | src/server.js:1254-1279 | the first form created over a missing forms file is stored third, after "base-member" and "vip", and the three ids read back are distinct |
| Server.FormsUpdateHandler | src/server.js:1281-1317 | refused input leaves every file untouched; an unknown id is refused after the load's repair; otherwise the updated registry is saved |
| Server.FormsToggleHandler | src/server.js:1319-1334 | refused iff the id is unknown, and then only the load's repair is written; otherwise the toggled registry is saved; the other files are untouched |
| Server.FormsDeleteHandler | src/server.js:1336-1348 | refused iff the id is unknown, and then only the load's repair is written; otherwise the registry without the first match is saved; the other files are untouched |
| Server.ApplyHandler | src/server.js:1129-1192 | an invalid user id changes no file; otherwise the forms file holds exactly the load's repair; any refusal leaves the applications file as it was; an accepted submission appends exactly the decided record |
| Server.ApplyAppendsOne | src/server.js:1169-1189 | after an accepted submission the applications are the old ones plus one pending web record with one non-blank answer per question |
| Server.StaffCreateHandler | src/server.js:1350-1390 | as for the public path, with the staff decision: an invalid user id changes no file, otherwise the forms file holds the load's repair, and only an accepted record is appended |
| Server.ApproveSends | src/server.js:1392-1420 | no grant request is sent for an unknown or already reviewed id |
| Server.ApproveHandler | src/server.js:1392-1438 | an unknown or reviewed id writes only the applications load's repair; otherwise the forms file holds the load's repair; any refusal or failed grant leaves the applications as loaded; success iff the target is pending, a request is sent and the reply succeeds, and then only the target becomes the approved, refreshed record |
| Server.RejectHandler | src/server.js:1440-1475 | only a pending record is rejected; the rejection is saved whatever the notify call answers, and its result is only reported |
| Server.RejectSends | src/server.js:1454-1468 | a notify request goes out only for a pending target, and says REJECTED |
| Server.RejectIndependentOfNotify | src/server.js:1454-1468 | the files after a rejection do not depend on the notify reply, and the target is stored REJECTED with `reviewedBy` set |
| Server.FailedApproveCanRetry | src/server.js:1420-1424 | after a failed grant the record is still the pending first match, so approval can be retried |
| Server.ApprovedIsFinal | src/server.js:1401-1405 | after an approval, approving or rejecting the same id again is refused as already reviewed, with no grant request and no change |
| Server.RejectedIsFinal | src/server.js:1448-1452 | after a rejection, reviewing the same id again is refused as already reviewed and changes nothing |
| Server.GrantUsesCurrentForm | src/server.js:1407-1420 | the grant goes to the current form's role and guild when they are set, and carries its current name |

## Left out

- HTML page builders, `esc` and the bases editor markup are presentation.
  Only the `state_<id>` field names the editor submits are modelled
  (`Bases.EditorBody`). `esc` leaves base ids unchanged, because ids only
  contain `[a-z0-9_-]`.
- Cookie parsing, the staff login and logout, and the staff gate are
  session plumbing. The staff user name is a parameter.
- `stats`, `money`, `orderGross`, `isSameUtcDay` and `isGiveawayActive`
  use floating point and wall-clock dates, outside the application
  lifecycle.
- File I/O: `readJson`/`writeJson` become the `Stored<T>` value of each
  file. An unreadable or unparsable file reads as missing.
- The `fetch` transport and JSON decoding are not modelled. The bot's
  reply is the `Reply` input, and a body that is not JSON or is falsy is
  `None`.
- `Date.now`, `new Date().toISOString()` and `Math.random` are not
  modelled. Each request takes one `now` and one fresh application id as
  parameters, so `createdAt` and `updatedAt` written in one request are
  equal here.
- Express routing, redirects and the message texts of redirects are left
  out. Refusals are the `Refusal` values, and an approval failure carries
  the error text.
- Concurrent async handlers (the lost update between approve and another
  write) are out of scope. The model is sequential.
- `toLowerCase` and `toUpperCase` are modelled for ASCII letters only.
  String lengths count Unicode code points, not UTF-16 code units.
- Application records are stored without normalisation, so the model
  assumes records of the shape this program writes. Records with other
  field types (for example a numeric `id`) are not modelled.
- JSON numbers are integers here, kept exact; JavaScript numbers are
  doubles. Left out with that:
  - a snowflake stored unquoted (a hand-edited `guildId` such as
    123456789012345678) is rounded above 2^53 and reads back as a
    different numeral;
  - `String()` writes numbers of 1e21 and above in exponent form;
  - `String()` of a fractional number is not modelled.
- `String()` of an object is always "[object Object]" here. In JavaScript
  an object whose own `toString` or `valueOf` key is not a function makes
  `String()` throw, and the request fails.
- The GET pages that only read (`/bases`, `/apply`, the staff panels) are
  left out, apart from the loads they share.
- Forms read-repair is proved stable only for forms that need no repair
  (`Forms.SaveLoadFormsRoundTrip`). The two-load convergence is proved
  for bases only.

## Notes on the source

- Answers are padded with empty strings up to the number of questions
  (lines 1160-1162). That padding can never add anything. The answers
  were already compacted by `toStringArray`, so the completeness check
  passes only when there are at least as many answers as questions. The
  second "no answers" check (line 1164) is unreachable for the same
  reason. Both are modelled as written, and
  `Applications.MissingIffTooFew` shows the check is exactly "fewer
  answers than questions".
- Approval refreshes the target role and guild from the current form only
  when the form's values are non-empty. The form name is always
  refreshed.
- Both bot URLs have built-in defaults. So of the "missing configuration"
  checks, only the missing secret can ever fire.
- `makeApplicationFormId` lower-cases the name but does not trim it.
  `makeBaseId` lower-cases and then trims. Neither difference changes
  the slug, because white space is never a slug character.
- A name is trimmed before it is cut to 60 or 80 characters, so a stored
  name can end in a space after one load. The next load trims it again,
  and from then on the file is stable (`Bases.ReadRepairSettles`).
