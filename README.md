# fault_info: a verified model of the status-notice API

`api.py` is a small Bottle service that records maintenance and incident
announcements in a MySQL table (`fault_info_log`), serves them back as JSON,
and tweets a one-line Japanese status for each new announcement. This project
models the sequential logic under that plumbing in Dafny and proves what it
promises:

- **Form validation** (`forms.dfy`): `require` walks its key list and stops at
  the first missing field; `optional` maps every key to the field or `None`;
  the dict update that merges the two.
- **Status formatter** (`status.dfy`, with `datetimes.dfy` and `text.dfy`): the
  phase chosen from `begin`, `end` and `now`, the `verb` phrase table,
  `type_to_jp`, `get_uri`, and the assembled message. Datetimes are field
  tuples in Python's valid range, compared field by field as Python compares
  naive datetimes. `str(datetime)` and `default_datetime_format`
  (`strftime('%Y/%m/%d %H:%M:%S')`) are both written out with zero padding.
- **Abstract store** (`store.dfy`): the table as a sequence of rows in store
  order with unique ids; `get_info` with its `{"": ""}` stand-in, the latest-row
  query, and the column values `save` binds, including `''` for a missing
  `detail`.
- **Partial-update builder** (`update_builder.dfy`): the loop in `update` that
  collects `key=%s` assignments and bound values for the non-`None` entries,
  then appends the id; the statement text and its placeholder count.
- **Handlers** (`handlers.dfy`): `api_post_info` as a decision over the form,
  the table, the outcome of the INSERT, the notifier's answer and `now`;
  `api_get_info`'s three read modes.

The program is Python 2, and the model follows it where that matters. On
Python 2, `strftime` raises `ValueError` for years before 1900. So a read
whose rows hold such a date ends in Bottle's 500 page, not a 200. Also,
`'{0}'.format(None)` writes `None`. So a `type` that `type_to_jp` does not know
shows as `【None】` when the verb lookup succeeds, which happens when the type
is itself a verb-table key such as `event-done` and no suffix is added.

Four behaviours of `api.py` that the model states outright:

- The read handler answers 500 when a row it would return holds a year
  before 1900 (the `strftime` failure above).
- A post with a `type` the formatter does not know is stored, and the
  `KeyError` from `get_status` then escapes `api_post_info`: the client gets a
  500 and no tweet is sent.
- `get_status` takes the "done" phrase when `end < now`, and the bare phrase
  when `end` is at or after `now`.
- An update with every value None emits `SET` straight into `WHERE`.

Inputs the model takes as parameters: the current time `now`; the store's
answer to the INSERT (`SaveFailed` or the id it assigned, assumed fresh); the
store's conversion of submitted `begin`/`end` text into datetimes (`toTime`);
the store's reading of the `issue` query text as an id (`toId`); whether the
notifier accepted the status (`tweetOk`).

## Model

| member | source | states |
|---|---|---|
| `Forms.FirstMissing` | api.py:41-46 | the position of the first key absent from the form: every earlier key is present, the one there is absent, or all are present |
| `Forms.Required` | api.py:39-47 | fails exactly when some key is missing, naming an absent key that is the first missing one in list order; otherwise the map's domain is exactly the keys and each value is the submitted field |
| `Forms.Require` | api.py:39-47 | the loop that fills the dict and raises at the first missing key returns exactly `Required` |
| `Forms.Optionals` | api.py:50-54 | the map's domain is exactly the keys; a key maps to None exactly when the field is absent, otherwise to the field |
| `Forms.Optional` | api.py:50-54 | the loop never fails and returns exactly `Optionals` |
| `Forms.Get` | api.py:42 | `request.forms.get`: Some exactly when the field was sent, with its value |
| `Forms.Merge` | api.py:279 | `dict.update`: the union of both domains, the optional entry winning on a shared key |
| `Text.IntToString` | api.py:159 | `str(n)`: the canonical digits of a non-negative id, or `-` then digits without a leading zero; `IntToStringRoundTrip` reads it back |
| `Text.NatToString` | api.py:159 | decimal text as `str` writes it: non-empty, digits only, no leading zero, "0" only for zero |
| `Text.IntToStringRoundTrip` | api.py:159 | `str(id)` for any integer reads back as that integer |
| `Text.ZeroPad` | api.py:238 | a `strftime` numeric field is digits only; `ZeroPadValue` and `ZeroPadLength` give its value and width |
| `Text.ZeroPadValue` | api.py:238 | a `%0Nd` field reads back as the number it was made from |
| `Text.ZeroPadLength` | api.py:238 | a number below 10^N pads to exactly N characters |
| `DateTimes.Before` | api.py:172-176 | datetime `<` and `>`: the fields compared year first; `BeforeIsStrictTotalOrder` is its partner |
| `DateTimes.BeforeIsStrictTotalOrder` | api.py:172-176 | that comparison is irreflexive, asymmetric and transitive, and orders any two distinct datetimes |
| `DateTimes.IsoText` | api.py:182-183 | `str(datetime)` is 19 characters with `-`, space and `:` at the fixed offsets |
| `DateTimes.DefaultDatetimeFormat` | api.py:236-240 | the JSON datetime hook succeeds exactly for years from 1900 on, giving 19 characters with `/` separators, and otherwise raises the year error |
| `DateTimes.LayoutShape` | api.py:238 | each field of the formatted datetime sits at its fixed offset, zero-padded |
| `DateTimes.DefaultDatetimeFormatRoundTrip` | api.py:238 | the `YYYY/MM/DD HH:MM:SS` text reads back as the same datetime |
| `Store.FetchById` | api.py:119-125 | the SELECT by id finds a row exactly when one has that id, and the row it finds has that id |
| `Store.GetInfo` | api.py:115-128 | `get_info` returns the blank stand-in exactly when no row has the id, otherwise a table row with that id |
| `Store.FetchLatest` | api.py:142-152 | the latest-row query is None exactly on an empty table, otherwise a row whose id is the largest |
| `Store.SaveValues` | api.py:202-208 | `type`, `service` and `begin` are bound as submitted; `end` is bound as NULL exactly when absent or None, and otherwise as submitted; `detail` is the submitted one, or `''` when absent or None |
| `Store.NewRecord` | api.py:197-209 | the stored row carries the assigned id and the bound type, service and detail; its begin is the store's reading of the bound begin; its end is NULL exactly when none was bound, and otherwise the store's reading of the bound end |
| `Store.FetchFindsRow` | api.py:119-127 | with unique ids, looking up a row's id returns that very row |
| `Store.InsertThenGetInfo` | api.py:283-286 | inserting a row under a fresh id keeps ids unique, and `get_info` then returns the new row, not the stand-in |
| `Status.Verbs` | api.py:17-26 | the eight-entry phrase table; `KnownTypeKeysResolve` and `SuffixedKeyNeedsKnownType` state which keys it holds |
| `Status.TypeToJp` | api.py:163-167 | a noun exactly for `maintenance` and `event`, None for every other type |
| `Status.PhaseOf` | api.py:172-177 | `will` exactly when begin is after now; otherwise `cont` exactly when end is absent; otherwise `done` exactly when end is before now; otherwise the bare key: each input is in exactly one case |
| `Status.GetUri` | api.py:155-161 | the link is the base URI, then `detail/`, then text that reads back as the id |
| `Status.GetStatus` | api.py:170-190 | on the blank stand-in it raises KeyError('type'); on a row it succeeds exactly when the phase key is in the verb table, and otherwise raises KeyError naming that key |
| `Status.Message` | api.py:178-189 | the filled format string opens with `【noun】`, begin and 〜, and ends with `. 影響サービス:`, the service, ` 詳細:` and the link |
| `Status.MessageFrame` | api.py:178-189 | for a row whose phase key is in the table, `get_status` succeeds, and its status opens with the bracketed noun (or `None`) and the begin time, and ends with the service and the row's detail link |
| `Status.MessageEndSegment` | api.py:178-189 | for such a row, the whole status `get_status` returns: between that head and tail, `、` and the verb phrase when the row has no end; the end time, `の間に`, `、` and the verb phrase when it has one |
| `Status.EndSegmentsBlankIffOpen` | api.py:183-184 | the end segment and the connector are each empty exactly when end is absent |
| `Status.KnownTypeKeysResolve` | api.py:17-26 | for both known types every phase key is in the table, the bare and `-cont` phrases coincide, and `event-will` is the empty phrase |
| `Status.SuffixedKeyNeedsKnownType` | api.py:172-177 | a key with a `-will`/`-cont`/`-done` suffix is in the table only for the two known types |
| `Status.UnknownTypeFails` | api.py:163-185 | for another type `type_to_jp` yields None and `get_status` raises, unless the type is itself a table key in the bare phase |
| `Status.KeyNamedTypeRendersNone` | api.py:163-185 | that exception: a table-key type in the bare phase formats, with `【None】` as its noun |
| `Status.MaintenanceAhead` | api.py:170-190 | a maintenance with begin after now and no end gives the `will` phrase and no end segment |
| `Status.EventOngoing` | api.py:170-190 | an event with no end, at any now from its begin on, gives the ongoing phrase and no end segment |
| `UpdateBuilder.Kept` | api.py:246-249 | the `value is not None` filter: never longer than the params, and every kept pair is an entry with a non-None value |
| `UpdateBuilder.Assignments` | api.py:248 | one `key=%s` per kept entry, position by position |
| `UpdateBuilder.Arguments` | api.py:249 | one bound field value per kept entry, position by position |
| `UpdateBuilder.BuildSet` | api.py:243-250 | the loop yields the assignments of the non-None entries and their values followed by the id, so there is one more value than keys |
| `UpdateBuilder.KeptMembers` | api.py:246-249 | a pair is kept exactly when the params hold that key with a non-None value |
| `UpdateBuilder.KeptAppend` | api.py:246-249 | filtering keeps iteration order: it maps a concatenation to the concatenation of the filtered parts |
| `UpdateBuilder.KeptExtremes` | api.py:246-249 | nothing is kept exactly when every value is None; everything is kept when no value is None |
| `UpdateBuilder.UpdateSql` | api.py:252-255 | the statement opens with `UPDATE fault_info_log SET` and holds one placeholder more than the joined SET list, the one for the id |
| `UpdateBuilder.UpdatePlaceholdersMatch` | api.py:250-257 | with `%`-free field names the statement has exactly as many placeholders as bound values |
| `UpdateBuilder.EmptyUpdateHasNoAssignments` | api.py:253-255 | with every value None the SET list is empty, only the id is bound, and the statement reads `SET` straight into `WHERE` |
| `Handlers.PostParams` | api.py:273-279 | fails exactly when a required field is missing, naming the first missing one; otherwise the dict holds the four required fields, and the two optional ones or None |
| `Handlers.Announce` | api.py:286-289 | after the save: an escaped KeyError exactly when the stored row's status does not format, and then no tweet; otherwise the tweet is that status and the answer is Success exactly when the notifier accepted it |
| `Handlers.PostStatusCode` | api.py:57-112 | the status each response helper sets: 200 for Success and the invalid-key body, 400 for a missing field, 500 for CannotSaveToDB, CannotTweet and an escaped exception |
| `Handlers.PostInfo` | api.py:271-289 | 400 naming the first missing field exactly when one is missing; then the invalid-key body exactly on a key mismatch; then CannotSaveToDB exactly on a failed save; none of these stores or tweets; past them the expected row, with `''` for a missing detail, is appended; Success exactly when the notifier accepted |
| `Handlers.PostTweetsStoredRow` | api.py:283-289 | after a save, `get_info` finds the new row and the tweet is its status; for a known type a tweet is always sent and the answer is Success exactly when it succeeded |
| `Handlers.PostUnknownTypeIsUncaught` | api.py:283-286 | a type the formatter cannot resolve is stored, no tweet is sent, and the answer is a 500 |
| `Handlers.SelectBody` | api.py:295-314 | `all` in {'1','True','true'} gives every row in store order; else `issue` gives that row or the stand-in exactly when none has the id; else the row with the largest id, None on an empty table; every returned row is from the table |
| `Handlers.GetInfoHandler` | api.py:292-315 | 200 with the selected body exactly when every datetime in it can be formatted |
| `Handlers.GetIsOkForModernDates` | api.py:297-314 | with every stored datetime from 1900 on, the read handler never answers with an error status |
| `Handlers.GetIssueReturnsRow` | api.py:303-308 | `issue` naming a stored id returns exactly that row |

## Left out

- MySQL itself: connections, SQL execution, transactions, `last_insert_id` and auto-increment. The INSERT's outcome is an input, and an assigned id is assumed fresh. The UPDATE and DELETE statements are never run.
- The Twitter notifier: OAuth and the HTTP POST are foreign network calls. Whether the post returned 200 is the boolean `tweetOk`.
- Handlers.PostInfo: does not model an exception raised by the notifier's HTTP call itself. Such an exception would escape as a 500.
- Bottle: routing, `HTTPResponse`, and reading `request.forms`/`request.query`. Forms are maps, and responses are datatypes with each helper's fixed body and status.
- Config loading at import time: the API key and base URI are a `Config` value.
- `datetime.now()` is the parameter `now`, a whole-second reading taken once. JSON serialisation is not modelled apart from the datetime hook's failure.
- Status.PhaseOf: `datetime.now()` has microseconds, and `get_status` reads it twice (once for `begin > now`, once for `end < now`). So during the second in which `end` falls, the program already says `-done` where `PhaseOf` at that whole second gives the bare phrase. Because the two readings can straddle a second, a single `now` also does not capture a clock that moves between them.
- `default_datetime_format`'s `TypeError` branch for objects that are not datetimes: only datetime values reach the hook in this model.
- Fractions of a second: the DATETIME columns hold none, so `str(datetime)` never shows them.
- The store's conversion of submitted timestamp text into datetimes (`toTime`) and of the `issue` text into an id (`toId`) belong to MySQL and are parameters.
- `toTime` is total onto valid datetimes: the model assumes the store always reads back a real datetime for a bound `begin` or `end`, as a strict-mode MySQL does by failing the INSERT (`SaveFailed`) on bad text. A non-strict MySQL stores a zero date for, say, `end=`, and MySQLdb reads that back as None. `get_status` would then take `-cont` for the end, or raise a `TypeError` on a None `begin` (a 500 and no tweet). The model does not capture either.
- Handlers.PostTweetsStoredRow: "a known type always tweets" holds only under that `toTime` assumption; with a None `begin` read back, the handler would answer 500 instead.
- The iteration order of `params.iteritems()`, which Python 2 does not fix: the builder takes the entries in whatever order the dict yields them.
- `api_update_info` as a handler: it cannot run, because it uses the undefined names `required_key`, `requrie` and `RequiredSatisfiedError`. Only the SET builder of `update` is modelled.
- `api_delete_info` and `delete_info`: a bare DELETE with no logic, and notably no API key check.
- Python 2 byte strings are modelled as character strings. Encoding is not modelled.
