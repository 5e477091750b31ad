# Hairstyle suggestion server — a Dafny model of its core

The server (`backend/server.py`, a Flask app) takes a face photo and:

- analyses it with a vision model;
- renders the face with a new hairstyle, taken from a preset or from a reference photo;
- adjusts a rendered image by length, colour and style;
- generates the thumbnail images of its preset table.

This project models the logic the server runs around those model calls:

- **`ResultCache`** (`result_cache.dfy`) is the in-memory result cache, a class over a map.
  - Entries are keyed by image hash.
  - An entry is served while it is at most 24 hours old. A lookup that finds an older entry deletes it and misses.
  - Traces of calls are replayed against a never-evicting logical cache. With a clock that never goes back, lazy eviction is proved invisible. A concrete trace shows that it becomes visible once the clock goes back.
- **`ImageKey`** (`image_key.dfy`) is the content key of an upload.
  - The data-URI header is stripped (`split('base64,')[1]`).
  - The payload is decoded and hashed.
  - The analysis id `hairstyle_` + 32 hex digits is built.
  - Base64 decoding and SHA-256 are function parameters. Every property holds for any decoder and digest, except the id length, which assumes 64-digit digests.
- **`Text`** (`text.dfy`) holds the Python string operations used: `in`, `split`, `join`. It proves that joining the parts of a split gives back the text. It also proves that splitting undoes joining, for a non-empty list of parts none of which contains the separator, when the separator's first character does not recur in it (true of `base64,` and `, `).
- **`Requests`** (`requests.dfy`) covers the three image handlers up to their model call:
  - which requests are refused, with which status;
  - which images are sent;
  - which prompt template is chosen, with which interpolated values (the gender label, the adjustment text).
- **`Presets`** (`presets.dfy`) covers:
  - the preset table, exactly as written in the source;
  - the first-match lookup by id;
  - every answer of `generate_preset_image`;
  - the batch loop of `generate_all_preset_images`. It is an imperative method, proved to compute the two filters "status 200" and "everything else" over the 16 items in table order.

In `generate_preset_image` the image model is the parameter `api`. The batch's per-item call of `generate_preset_image` is the parameter `outcome`. The other three handlers are modelled up to their model call. Whether `GCP_PROJECT_ID` is set is the boolean `configured`.

Two facts about how the cache is used:

- `server.py` has no get-or-compute step: no route calls `get_cached_result` or `set_cached_result`, so the cache is modelled on its own and wired into no handler.
- The analysis id is computed, logged and returned, but is not used as a cache key.

## Model

| member | source | states |
|---|---|---|
| `ResultCache.Lookup` | backend/server.py:73-85 | a lookup serves exactly when the key is stored and `now` is at most `timestamp` + 24 h; what it serves is the stored result |
| `ResultCache.AfterLookup` | backend/server.py:75-83 | with `ResultCache.Expired` as the strict comparison `now - timestamp > 24 h` of line 81, a lookup deletes the looked-up key exactly when its entry is strictly older than 24 h, and nothing else changes |
| `ResultCache.Put` | backend/server.py:88-94 | a store adds or overwrites one key with (result, result id, now) and leaves every other key as it was |
| `ResultCache.Cache.Get` | backend/server.py:73-85 | the three cases: a missing key misses and changes nothing; an expired one misses and is deleted; a fresh one is served and kept |
| `ResultCache.Cache.Set` | backend/server.py:88-94 | the new store is the old one with `key` set to a fresh stamp; other keys unchanged |
| `ResultCache.Cache.constructor` | backend/server.py:60-61 | the cache starts empty |
| `ResultCache.LookupMissing` | backend/server.py:75-76 | an unknown key misses without changing the store |
| `ResultCache.LookupExpired` | backend/server.py:78-83 | an entry older than 24 h misses and only that key is removed |
| `ResultCache.LookupFresh` | backend/server.py:81-85 | an entry exactly 24 h old or younger is served (the comparison is strict) |
| `ResultCache.PutThenLookup` | backend/server.py:81-94 | a result stored at t is served by every lookup up to t + 24 h, and such a lookup changes nothing |
| `ResultCache.PutThenLateLookup` | backend/server.py:81-94 | after more than 24 h the stored result misses and is evicted |
| `ResultCache.PutOverwrites` | backend/server.py:90-94 | one entry per key: a second store replaces the first |
| `ResultCache.PutOtherKey` | backend/server.py:90-94 | storing one key does not change lookups of another |
| `ResultCache.LookupRepeat` | backend/server.py:73-85 | a repeated lookup at the same time gives the same answer and evicts nothing more |
| `ResultCache.TimesFromTail` | backend/server.py:79-81 | a trace with nondecreasing times stays so after its first call |
| `ResultCache.LazyEvictionIsInvisible` | backend/server.py:73-94 | with a clock that never goes back, every lookup of any trace replayed on the cache (`ResultCache.Replay`) answers as on a cache that never deletes (`ResultCache.LogicalReplay`) |
| `ResultCache.LazyEvictionFromStart` | backend/server.py:60-94 | the same, from the empty cache at start-up |
| `ResultCache.EvictionVisibleWhenClockGoesBack` | backend/server.py:79-83 | when `datetime.now()` goes back, an evicted result is no longer served although it would be fresh again |
| `Text.IndexOf` | backend/server.py:67-68 | the first occurrence of a pattern at or after a position, or none at all |
| `Text.OccursInPrefix` | backend/server.py:67 | an occurrence inside a prefix is an occurrence in the whole text |
| `Text.NoOccurrenceBeforeSeparator` | backend/server.py:68 | a separator whose first character does not recur in it does not occur across the boundary of a part that lacks it |
| `Text.NotContainsWithoutFirst` | backend/server.py:67 | with `Text.Contains` as Python's `pat in s`, text lacking the pattern's first character does not contain the pattern |
| `Text.Split` | backend/server.py:68 | `split` yields at least one part, two or more exactly when the separator occurs, and no part contains it; `Text.JoinSplit` adds that the parts rebuild the text |
| `Text.JoinStartsWithFirst` | backend/server.py:401 | `Text.Join` is `sep.join`; it starts with its first part, and a join of non-empty parts is empty exactly when there are none |
| `Text.JoinFirstTwo` | backend/server.py:68 | a join of two or more parts is the first two around a separator, then a separator and the join of the rest |
| `Text.SplitWithoutSeparator` | backend/server.py:68 | text without the separator splits into itself |
| `Text.JoinSplit` | backend/server.py:68 | joining the parts of any split with its separator gives back the text |
| `Text.SplitJoin` | backend/server.py:68 | splitting undoes joining for a non-empty list of parts, none containing the separator, and a separator whose first character does not recur in it |
| `ImageKey.StripDataUri` | backend/server.py:67-68 | the stripped payload never contains the marker; text without the marker is kept; `ImageKey.StripKeepsSecondSegment` says which segment is kept |
| `ImageKey.StripKeepsSecondSegment` | backend/server.py:67-68 | with the marker present, the text is the part before the first marker, the marker, the stripped payload, and then any second marker with everything after it: `split('base64,')[1]` |
| `ImageKey.StripIdempotent` | backend/server.py:67-68 | stripping twice is stripping once |
| `ImageKey.StripPrefixed` | backend/server.py:67-68 | a header + `base64,` + payload strips to the payload |
| `ImageKey.StripJpegDataUri` | backend/server.py:67-68 | a `data:image/jpeg;base64,` URI strips to its payload |
| `ImageKey.ImageHash` | backend/server.py:65-70 | the hash is the digest of the decoded stripped payload, and is missing exactly when decoding fails |
| `ImageKey.HashDependsOnlyOnPayload` | backend/server.py:65-70 | two uploads with the same payload get the same hash |
| `ImageKey.PrefixedHashesAsPayload` | backend/server.py:65-70 | a data-URI upload hashes as its bare payload |
| `ImageKey.Take` | backend/server.py:130 | `h[:n]` is a prefix of `h` of length min(\|h\|, n) |
| `ImageKey.AnalysisId` | backend/server.py:129-130 | the id starts with `hairstyle_`, continues with a prefix of the hash, and is missing exactly when the hash is |
| `ImageKey.AnalysisIdLength` | backend/server.py:129-130 | with a 64-digit hex digest the id has 10 + 32 characters |
| `Requests.GenderLabel` | backend/server.py:230-285 | メンズ exactly when the gender is absent or `mens`, レディース otherwise |
| `Requests.Generate` | backend/server.py:222-296 | every answer exactly (refusals built by `Requests.Refuse` with `Requests.StatusOf`; the images are `Requests.Payload` of each field, decoding succeeds when `Requests.Decodes` holds): 400 without a face, 400 without a style, 500 when not configured, 500 for a null face, 500 for an undecodable face or reference image (checked in that order); truthiness is `Requests.Truthy`; otherwise the images sent, the template chosen, and the values it interpolates (`Requests.Format` of the preset name, the preset text, `Requests.GenderLabel`) |
| `Requests.GenerateNeedsStyle` | backend/server.py:232-233 | a request with neither a preset nor a reference image is refused with 400 whether or not the server is configured |
| `Requests.GenerateDefaultsToMens` | backend/server.py:230-290 | a preset-only request with no gender is rendered with メンズ |
| `Requests.GenerateMissingPresetName` | backend/server.py:229-290 | a preset-only request without a preset name shows it as `None`, as the f-string renders a missing value |
| `Requests.GenerateNullGenderIsLadies` | backend/server.py:230-290 | a `null` gender is not defaulted and renders as レディース |
| `Requests.Selected` | backend/server.py:393-399 | the kept adjustments are non-empty texts, none of them when all are falsy |
| `Requests.AdjustmentText` | backend/server.py:393-401 | the appends equal `Requests.AdjustmentTextOf`, the truthy adjustments joined by `, ` in the order length, color, style; the text is empty exactly when none is given |
| `Requests.AdjustmentTextSplits` | backend/server.py:393-401 | the adjustment text splits back into exactly the given adjustments when none contains `, ` |
| `Requests.NoAdjustmentsIsEmpty` | backend/server.py:361 | a request without adjustments yields the empty adjustment text |
| `Requests.Adjust` | backend/server.py:354-414 | every answer exactly: 400 without a face, 500 when not configured, 500 for a null face, 500 for an undecodable face or current image, 500 for null adjustments; otherwise the face and the optional current image are sent with the adjustment text |
| `Requests.Analyze` | backend/server.py:122-147 | every answer exactly: 400 without a face, 500 for a null face, 500 for an undecodable face, then 500 when not configured (the hash comes first); otherwise the id is the analysis id of the face and the payload the stripped face |
| `Presets.PresetsFor` | backend/server.py:464-499 | exactly `mens` and `ladies` have a preset list |
| `Presets.FindFirst` | backend/server.py:501 | the position of the first preset with the id, or none exactly when no preset has it |
| `Presets.FindFirstOfMember` | backend/server.py:501 | with unique ids the lookup of a member's id finds that member |
| `Presets.TableIdsUnique` | backend/server.py:464-485 | neither list of the table repeats an id |
| `Presets.GeneratePresetImage` | backend/server.py:497-588 | every answer exactly, each reply built by `Presets.Reply` with its status (`Presets.StatusOf`): 400 for an invalid gender or id; the preset found is `Presets.PresetOf`; 200 with the placeholder for a prompt-less preset; 500 when not configured; otherwise the `Thumbnail` sent to the model (`Presets.ThumbnailOf`, `Presets.GenderEn`) decides: 200 with `data:image/png;base64,<data>` and the file path `/images/presets/<gender>/<id>.png` for non-empty data, 500 for no data, 500 with the message for an exception |
| `Presets.ThumbnailGender` | backend/server.py:532-542 | the thumbnail prompt is written for a man for `mens` presets and for a woman for `ladies` presets |
| `Presets.PlaceholderNeverCallsApi` | backend/server.py:505-520 | a prompt-less preset is answered with 200 whatever the configuration and the image model |
| `Presets.UnconfiguredPromptFails` | backend/server.py:522-523 | without configuration every preset with a prompt fails with 500 |
| `Presets.ItemsOf` | backend/server.py:599 | the batch visits a gender's presets in table order |
| `Presets.AllItems` | backend/server.py:598-599 | the batch visits 16 items, gender by gender (`Presets.ItemsFor`) |
| `Presets.AllItemsInOrder` | backend/server.py:598-599 | all `mens` presets, then all `ladies` presets |
| `Presets.NoneItems` | backend/server.py:598-599 | the first item of each gender is its なし preset |
| `Presets.SuccessesAppend` | backend/server.py:604-605 | visiting one more item extends the success filter by its label exactly when it answered 200 (`Presets.Succeeded`; a thrown exception is a failure) |
| `Presets.FailuresAppend` | backend/server.py:606-609 | visiting one more item extends the failure filter by its entry exactly when it did not answer 200 |
| `Presets.PartitionIsFilter` | backend/server.py:596-611 | the loop's two lists (`Presets.Partition`) are the success filter and the failure filter (`Presets.Successes`, `Presets.Failures`) of the visited items |
| `Presets.PartitionCounts` | backend/server.py:596-611 | every visited item lands in exactly one list |
| `Presets.SucceededIsListed` | backend/server.py:604-605 | an item answered with 200 has its label in the success list |
| `Presets.ListedSucceeded` | backend/server.py:604-605 | every label in the success list is that of an item answered with 200 |
| `Presets.VisitOne` | backend/server.py:603-609 | one visit appends the label `<gender>/<id>` (`Presets.Label`) to the success list, or the label (with the exception text, `Presets.FailureEntry`) to the failure list |
| `Presets.ItemsOfStep` | backend/server.py:599 | the items of one more preset extend the inner loop's visited items |
| `Presets.ItemsForStep` | backend/server.py:598 | the items of one more gender extend the outer loop's visited items |
| `Presets.BatchPartition` | backend/server.py:596-611 | over the whole batch, the lists are the two filters, and 16 entries in all |
| `Presets.GenerateAllPresetImages` | backend/server.py:596-611 | the loop returns exactly the filters of the 16 items in table order: the labels (`Presets.Label`) with status 200, and the rest with their exception text (`Presets.FailureEntry`) |
| `Presets.VisitGender` | backend/server.py:599-609 | after the inner loop over one gender, the two lists are the partition of the items visited before followed by that gender's items in table order |
| `Presets.BatchItemsAreFound` | backend/server.py:498-503 | every item the batch passes has a valid gender and an id the lookup finds |
| `Presets.NonePresetIsPlaceholder` | backend/server.py:501-520 | the なし preset of either gender is answered with the placeholder |
| `Presets.PlaceholderListed` | backend/server.py:604-605 | a なし item answered with 200 is listed as `<gender>/none` |
| `Presets.PlaceholdersAlwaysSucceed` | backend/server.py:505-611 | in the batch, with each item handled by the modelled `generate_preset_image` (`Presets.HandlerOutcome`), `mens/none` and `ladies/none` succeed whatever the image model does |

## Left out

- The vision and image model calls (`GenerativeModel`, `genai.Client`) are parameters or are cut off. Also left out: the parsing of their replies (the fenced-JSON regex, `json.loads`, the loop over response parts) and the success responses built from them.
- The exact prompt texts. Only the choice of template and the values it interpolates are modelled.
- PIL (`Image.open`, the placeholder drawing) and writing the thumbnail file. An image the decoder accepts but PIL rejects, and a failing file write, end in the handlers' catch-all 500. That case is not distinguished from the modelled ones.
- Base64 and SHA-256 internals. They are function parameters.
- Request JSON values other than absent, `null` or a string, and a request body that is not an object. So are non-string adjustment values (which make `join` raise) and an `adjustments` value that is a string, number or list (`.get` raises on it, a 500). `Option<Adjustments>` represents only an object or `null`.
- `Requests.Generate`: when it proceeds, its images are the stripped payloads, not the decoded bytes.
- `Requests.Adjust`: like `Generate`, its images are the stripped payloads.
- `Requests.Analyze`: when it proceeds, its face is the stripped payload, not the decoded bytes sent at backend/server.py:147-148.
- The cache's time model. `datetime.now()` is an integer count of microseconds passed in by the caller. It reads a naive local clock that may jump. The trace lemmas assume nondecreasing time where they say so.
- Thread-safety of the module-level cache dict under Flask's threaded server. Also left out: the aliasing of stored result dicts, which are held by reference.
- The static routes, the health endpoint, environment and credential setup, logging and the `__main__` block.
- The batch's `app.test_request_context()` and the `except` around each item are modelled as an abstract per-item outcome: a returned status, or a thrown message. `Presets.HandlerOutcome` instantiates it with the modelled `generate_preset_image`. That function catches every exception itself, so with it the `Thrown` case does not arise.
- `generate_presets.py` and the frontend are not part of this model.
