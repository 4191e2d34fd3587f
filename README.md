# AI App Builder core, in Dafny

A model of the core of a small web service that turns a prompt into a
downloadable Python app. The model covers four parts of the service:

- **The job registry `JobStore`** (`app/jobs.py`). It is a keyed store of `Job`
  records: `create`, `get`, `update`, `set_progress`, `all`. It also has a
  pruner that sweeps away finished jobs past a retention time, and deletes
  their zip archives when it can. `Jobs.JobStore` is a class. It holds the
  dict (`jobs`), the dict's insertion order (`order`) and the once-flag
  (`prunerStarted`). Its methods change these in place. One sweep of the
  pruner is the method `Sweep`, which is built from `ExpiredInOrder`
  (the first loop), `Evict` (the second loop), `DeleteZip` and `Pop`.
- **Code-fence stripping `clean_code_markers`** (`app/postprocess.py`). This
  is a pure function in `Postprocess`. The fence regex is modelled as it
  matches: a greedy tag run, then a lazy body that ends at the first index
  where an optional closing fence and trailing whitespace complete the
  match. Lemmas then derive what this means on whole inputs.
- **Project scaffolding** (`app/utils.py`). `_wrap_streamlit` and
  `_wrap_gradio` are pure functions. `write_app_file` is a method that
  writes, one at a time, into a map from file name to contents. That map
  stands in for the target directory.
- **Environment settings** (`app/config.py`). The environment is a
  `map<string, string>`. Python's `int()`, `str.strip()`, `str.lower()` and
  `in` are written out in `Config` and `Text`.

`Text` holds the Python string behaviour shared by the other modules:
`str.isspace`, `strip()`, `strip("`")`, and the substring test `in`.

The clock (`time.time()`), the id source (`uuid4().hex`), the set of
existing files and the set of files whose removal fails are all parameters.

## Model

| member | source | states |
|---|---|---|
| Text.Strip | app/postprocess.py:8 | `strip()` leaves no whitespace at either end and returns a contiguous piece of its argument |
| Text.StripBackticks | app/postprocess.py:15 | `strip("`")` leaves no backtick at either end and returns a contiguous piece of its argument |
| Text.StripIdempotent | app/postprocess.py:8-15 | stripping twice is stripping once |
| Text.StripPadded | app/config.py:23 | whitespace around an already-stripped word is exactly what `strip()` removes |
| Text.IsSpace | app/postprocess.py:8 | the ASCII whitespace characters (space, tab, newline, vertical tab, form feed, carriage return) are whitespace and no printable ASCII character is |
| Text.Contains | app/utils.py:48 | the empty string is in every string, and a string found in another is no longer than it |
| Text.ContainsAt | app/utils.py:48 | `sub in s` holds exactly when `sub` occurs at some index of `s` |
| Postprocess.OpenFenceEnd | app/postprocess.py:10 | the opening part of the fence matches exactly when the text starts with three backticks and a run of tag characters followed by a newline; it gives the index after that newline |
| Postprocess.LazyBodyEnd | app/postprocess.py:10 | the lazy body ends at the least index after which the rest is an optional closing fence and whitespace |
| Postprocess.FenceBody | app/postprocess.py:10-12 | the `body` group, when the pattern matches, is a contiguous piece of the text |
| Postprocess.LazyBodyEndStripped | app/postprocess.py:10 | on text with no trailing whitespace, the body runs to the end, less a final closing fence |
| Postprocess.CleanCodeMarkers | app/postprocess.py:4-17 | the result has no leading or trailing whitespace |
| Postprocess.CleanIsSliceOfInput | app/postprocess.py:8-15 | the result is a contiguous piece of the input |
| Postprocess.CleanOfStripped | app/postprocess.py:8 | whitespace around the input never changes the result |
| Postprocess.CleanUnwraps | app/postprocess.py:8-15 | whenever the stripped input matches the fence pattern, the result is the body with whitespace and outer backticks trimmed |
| Postprocess.CleanClosedFence | app/postprocess.py:8-15 | a fenced answer with a closing fence, with any whitespace around it, gives its body with whitespace and outer backticks trimmed |
| Postprocess.CleanOpenFence | app/postprocess.py:8-15 | a fence with no closing fence, with any whitespace around it (a final newline, say), is still unwrapped: the body is everything after the opening line |
| Postprocess.OpenFenceTag | app/postprocess.py:10 | three backticks, a tag of `[a-zA-Z0-9_+-]` characters and a newline open a fence that ends after that newline |
| Postprocess.CleanWithoutFence | app/postprocess.py:8-15 | without an opening fence, the only changes are trimming whitespace and outer backticks |
| Postprocess.CleanWithoutBackticks | app/postprocess.py:8-15 | text with no backticks only loses its surrounding whitespace |
| Utils.EscapeTripleQuotes | app/utils.py:55 | the replace is empty exactly for empty code, and at most doubles the length |
| Utils.EscapeTripleQuote | app/utils.py:55 | a triple quote becomes a backslash-escaped triple quote |
| Utils.EscapeConcat | app/utils.py:55 | escaping distributes over any split of the code that does not fall right after a quote |
| Utils.EscapeWithoutTriple | app/utils.py:55 | code with no triple quote, whatever single quotes it has, is embedded unchanged |
| Utils.EscapeAtFirst | app/utils.py:55 | split at its first triple quote, code escapes as the text before it unchanged, the escaped triple quote, then the rest escaped in turn |
| Utils.EscapeHead | app/utils.py:55 | the escaped code starts with a backslash where the code starts with a triple quote, and with the code's first character otherwise |
| Utils.NoTripleQuoteAtStart | app/utils.py:55 | the escaped code never starts with a triple quote |
| Utils.EscapeLeavesNoBareTripleQuote | app/utils.py:55 | after the replace, every triple quote in the code is preceded by a backslash |
| Utils.EscapeWithoutQuotes | app/utils.py:55 | code without a single quote is embedded unchanged |
| Utils.MentionsStreamlit | app/utils.py:48 | the test holds exactly when "streamlit" or "st." occurs at some index of the code |
| Utils.WrapStreamlit | app/utils.py:40-57 | the output starts with the header; code mentioning "streamlit" or "st." follows it after a newline, anything else sits in the text-area wrapper with its triple quotes escaped |
| Utils.WrapStreamlitEmbedsEscaped | app/utils.py:51-57 | non-Streamlit code appears in the output in escaped form, with no bare triple quote left |
| Utils.MentionsGradio | app/utils.py:62 | the test holds exactly when "gradio", "gr.Interface" or "import gradio as gr" occurs at some index of the code |
| Utils.MentionsGradioSimplified | app/utils.py:62 | the third test of `_wrap_gradio` is implied by the first |
| Utils.WrapGradio | app/utils.py:60-74 | the output starts with the header; Gradio code follows after a newline, anything else is replaced by the fixed skeleton |
| Utils.WrapGradioIgnoresOtherCode | app/utils.py:64-74 | for code that does not mention Gradio, the output does not depend on the code |
| Utils.Requirements | app/utils.py:19-30 | requirements.txt is "streamlit\n", "gradio\n" or "", each exactly for its framework case |
| Utils.AppSource | app/utils.py:19-29 | the app file is `_wrap_streamlit(code)` for Streamlit and `_wrap_gradio(code)` for Gradio, starting with that wrapper's header, and is the code verbatim for any other framework |
| Utils.Readme | app/utils.py:22-31 | README.md starts with the framework's heading and contains the prompt between code fences |
| Utils.RunScript | app/utils.py:34 | run.sh is "streamlit run app.py\n" exactly for Streamlit, else "python app.py\n", and always names app.py |
| Utils.WriteAppFile | app/utils.py:17-37 | exactly the app file and the four fixed files are written, with these contents; every other file is untouched |
| Config.ParseTrimmedInt | app/config.py:14 | `int()` of trimmed text succeeds exactly on an optional sign followed by digits with single underscores between them; a negative result comes only from a minus sign |
| Config.ParseInt | app/config.py:14 | `int()` succeeds exactly when the text, less the whitespace `int()` skips, is such a literal; text starting with one of the separator characters U+001C..U+001F fails |
| Config.DigitsValueUnderscore | app/config.py:14 | an underscore between digits does not change the value |
| Config.DigitGroupJoin | app/config.py:14 | two digit runs joined directly or by one underscore form a valid digit run |
| Config.UnderscoreAccepted | app/config.py:14 | for all digit runs a and b, `int(a_b)` equals `int(ab)` |
| Config.UnderscoreRejected | app/config.py:14 | for every digit run a, a doubled underscore, a leading underscore and a trailing underscore are rejected |
| Config.ShowNatValue | app/config.py:14 | the decimal digits of a natural number read back as that number |
| Config.ParseShowInt | app/config.py:14 | `int(str(n)) == n` |
| Config.GetEnvInt | app/config.py:12-16 | the default when the variable is absent or not an integer, else its integer value |
| Config.GetEnvIntShown | app/config.py:12-16 | a variable set to `str(n)` reads back as `n` |
| Config.Lower | app/config.py:23 | lower-casing maps each ASCII capital to its small letter and keeps every other character |
| Config.GetEnvBool | app/config.py:19-23 | the default when absent; when present, true exactly for an accepted word after trimming and lower-casing |
| Config.LowerStripped | app/config.py:23 | a string whose lower-cased form has no whitespace at either end has none itself |
| Config.TrueWordsStripped | app/config.py:23 | no accepted word starts or ends with whitespace |
| Config.AcceptedWordStripped | app/config.py:23 | a value that lower-cases to an accepted word has no whitespace at either end |
| Config.GetEnvBoolAccepts | app/config.py:23 | an accepted word in any letter case and with any surrounding whitespace reads as true |
| Config.GetEnvBoolRejects | app/config.py:23 | a present value that is not an accepted word reads as false even when the default is true |
| Config.GetEnvStr | app/config.py:26-28 | the value whenever present, the empty string included; the default only when absent |
| Config.LoadConfig | app/config.py:47-58 | each setting is read from its own variable, with the dataclass default as fallback |
| Config.LoadConfigDefaults | app/config.py:31-58 | an environment that sets none of the names gives the dataclass defaults |
| Config.LoadConfigReadsOnlyItsNames | app/config.py:47-58 | variables other than the nine names do not affect the settings |
| Jobs.Expired | app/jobs.py:72 | a job is swept exactly when it is "succeeded" or "failed" and was last updated more than `ttl` seconds before `now`; queued and running jobs never are |
| Jobs.NewJob | app/jobs.py:10-19 | a new record has the given id, prompt and framework, status "queued", an empty message, progress 0 and no zip; it is never expired |
| Jobs.GetAttr | app/jobs.py:10-19 | reading an attribute gives a value for that attribute |
| Jobs.SetAttr | app/jobs.py:47 | `setattr` changes the named attribute to the given value and leaves every other attribute as it was |
| Jobs.LastWrite | app/jobs.py:46-47 | finds a keyword argument naming the attribute after which no other names it, or reports that none names it |
| Jobs.ApplyAll | app/jobs.py:46-47 | after the `setattr` loop every named attribute holds its last written value, and every other attribute is unchanged |
| Jobs.Updated | app/jobs.py:46-48 | the updated record carries the new time, and with no keyword arguments nothing else changes |
| Jobs.UpdatedAttr | app/jobs.py:46-48 | `update` sets `updated_at` to the current time, sets each other named attribute to its last value, and keeps the rest |
| Jobs.Clamp | app/jobs.py:52 | the clamped progress is in [0, 1], is the progress itself inside that range, and is 0 below it and 1 above it |
| Jobs.Drop | app/jobs.py:82 | popping keys leaves exactly the other keys, as a subsequence of the original order, and keeps them distinct |
| Jobs.ExpiredIds | app/jobs.py:71-73 | the collected ids are exactly the finished records past the retention time, each once |
| Jobs.Pruned | app/jobs.py:66-82 | a sweep keeps only keys it had, each with its record unchanged and not expired |
| Jobs.ZipToDelete | app/jobs.py:76 | a zip is considered exactly when the record exists and has a non-empty zip path |
| Jobs.ZipStep | app/jobs.py:76-80 | one id's zip handling removes at most that zip, and only when its removal does not fail; a removal is attempted exactly when the zip exists |
| Jobs.RemoveZips | app/jobs.py:74-80 | the zip loop only removes files, and attempts at most one removal per swept id |
| Jobs.RemoveZipsEffect | app/jobs.py:74-80 | a sweep deletes exactly the existing zips of swept jobs whose removal succeeds, and attempts a removal exactly for the existing ones |
| Jobs.PrunedKeeps | app/jobs.py:71-82 | a sweep removes exactly the expired jobs and keeps every other job unchanged |
| Jobs.PrunedKeepsUnfinished | app/jobs.py:72 | a job that is not "succeeded" or "failed" survives every sweep unchanged |
| Jobs.PrunedIdempotent | app/jobs.py:66-82 | a second sweep at the same time removes nothing more |
| Jobs.PrunedLaterRemovesMore | app/jobs.py:72 | a later sweep removes at least what an earlier one would |
| Jobs.DeleteZip | app/jobs.py:75-80 | the file is removed only when the record names an existing zip and its removal does not fail; the attempt is recorded |
| Jobs.Snapshot | app/jobs.py:57 | the snapshot holds, in order, the record of each key |
| Jobs.JobStore.constructor | app/jobs.py:24-25 | the store starts with no jobs and the pruner not started |
| Jobs.JobStore.Create | app/jobs.py:28-33 | the new record is queued, with the given prompt and framework, progress 0, an empty message and no zip; it is stored under its id, a fresh id adds exactly one key, and every other record is unchanged |
| Jobs.JobStore.Get | app/jobs.py:36-38 | `None` exactly for an unknown id, else the stored record |
| Jobs.JobStore.Update | app/jobs.py:41-48 | an unknown id leaves the store unchanged; otherwise only that record changes, to the keyword writes followed by the `updated_at` bump |
| Jobs.JobStore.SetProgress | app/jobs.py:51-52 | the record gets the clamped progress, the given message and the new time, and nothing else changes; stored progress is in [0, 1] |
| Jobs.JobStore.All | app/jobs.py:55-57 | a snapshot of every record, in insertion order |
| Jobs.JobStore.StartPruner | app/jobs.py:60-64 | only the first call starts the pruner; afterwards the flag is set |
| Jobs.JobStore.Pop | app/jobs.py:81-82 | the record and its place in the order go; an unknown id changes nothing |
| Jobs.JobStore.ExpiredInOrder | app/jobs.py:69-73 | the first loop collects exactly the expired ids, in insertion order, each once |
| Jobs.JobStore.Evict | app/jobs.py:74-82 | the second loop removes exactly the given records and applies the zip deletions in order |
| Jobs.JobStore.Sweep | app/jobs.py:66-82 | one sweep leaves exactly the unexpired records, in their order, and deletes the zips as `RemoveZips` describes |

## Left out

- Threading: the lock, the daemon thread and `time.sleep` are not modelled. Each store operation and each sweep is one atomic step. The gap between collecting ids and popping them (app/jobs.py:70-82) is not modelled either; a sweep's two loops run with nothing in between.
- `uuid4().hex` is an id parameter of `Create`. A colliding id overwrites the old record, as the dict assignment would. The model does not assume ids are fresh.
- `time.time()` is a parameter. `created_at` and `updated_at` come from two separate clock readings, so `Create` takes two times.
- `start_pruner`'s `ttl_seconds` default (600) and `sleep_seconds` are not modelled. `Sweep` takes `ttl` directly and stands for one iteration of the endless loop.
- The file system is a set of existing paths. A failing `os.remove` is a path in a `failing` set, and its error is ignored as the source ignores it.
- Jobs.Job: records are values, so the aliasing of the mutable `Job` objects that `create`, `get` and `all` hand out is not modelled. Neither is a caller mutating a record outside the store.
- Jobs.Field: `update` writes only the nine `Job` attributes, each with a value of its declared type. Python's `setattr` would also add arbitrary new attributes or store values of any type.
- `make_zip_from_dir`, `write_file`, `ensure_dir` (app/utils.py:7-14, 77-85): disk and zip I/O. `os.path.join` with `target_dir` is not modelled either: names are relative to the target directory.
- `_get_env_float`, the `temperature` and `top_p` fields and their two settings (app/config.py:5-9, 35-36, 50-51): floating-point parsing. `Config.GenerationConfig` has no float fields.
- Config.ParseInt: accepts ASCII digits only; Python's `int()` also accepts other Unicode decimal digits. It skips the whitespace `int()` skips: ASCII space, tab, newline, vertical tab, form feed and carriage return, and the non-ASCII whitespace characters, but not the separators U+001C..U+001F, which `str.strip()` would remove.
- Config.ParseShowInt, Config.GetEnvInt, Config.GetEnvIntShown: do not model the limit of 4300 digits that Python 3.11 and later put on `int()` and `str()` of an integer. `int(str(n)) == n` holds only for numbers within that limit, or without it.
- Config.Lower: lower-cases ASCII letters only. Among non-ASCII characters, Python's `lower()` takes the Kelvin sign to "k" and U+0130 (capital I with dot) to "i" followed by U+0307. No accepted word contains "k" or U+0307, so membership in the accepted words, the only use of `lower()`, gives the same answer.
- NaN progress values are not modelled: progress is a Dafny `real`.
- Timestamps are Dafny `real` rather than floats, so `now - updated_at` (app/jobs.py:72) is exact. For real clock readings this changes nothing: the difference of two nearby floats is computed exactly.
- app/generator.py, app/main.py and app/static/main.js (model loading and decoding, web routing, browser polling) are not part of this model.
- The code has no capacity limiter, no job dispatcher and no enforced queued → running → terminal sequence of states: `update` accepts any fields in any order, and `main.py` runs generation inline without `JobStore`. The model follows the code and adds no such guard.
- app/utils.py:55 puts backslash-escaped quotes outside string literals in the argument of `code.replace`, which Python would not accept. The model follows the evident reading, `code.replace("'''", "\\'\\'\\'")`.
