# Executor core of pity, modelled in Dafny

pity is a test platform for HTTP interfaces. Its `Executor` class
(`app/core/executor.py`) runs one test case as follows:

- It substitutes global-configuration variables into the case's url, body and headers.
- It rewrites the case, its data constructors and its assertions with the caller's parameters.
- It hands each enabled constructor to the handler for its type.
- It substitutes flow variables (`${name.path}`) into the case's columns.
- It overwrites keys of a JSON request body.
- It resolves both sides of every assertion against the response, decodes them as JSON and compares them with one of twelve operators.
- It reports the case as passed, failed or errored.
- A run over many cases counts those statuses into a report and a plan verdict.

This project models that logic once the I/O around it is taken away, and
proves what each step promises.

Modules, in the order of the source:

- `Wrappers`, `Dicts`, `Text`: `Option`/`Result`; Python dicts as
  insertion-ordered key/value sequences (`get` finds the first match, an
  assignment to an existing key keeps its place, a new key goes last);
  `str.replace`, `str.split` and `in` on strings.
- `Json`: decoded JSON values (`None`, bool, int, str, list, dict), and
  Python's `json.dumps(…, ensure_ascii=False)`, truthiness, `==`, `in` and
  `len` on them. `json.loads` is a parameter (`Decoder`), because it is
  library code.
- `ElExpression`: the non-greedy `\$\{(.+?)\}` matcher (`get_el_expression`).
- `Resolver`: the dotted-path walk shared by `replace_params` and
  `parse_variable`. A string met on the way is decoded first.
  `replace_params` treats digit segments as list indexes; `parse_variable`
  never does.
- `Entities`: test case, constructor and assertion as classes. Their rewritable
  columns are mutable fields.
- `Rewrite`: `replace_cls` and its wrappers `replace_testcase`,
  `replace_constructors`, `replace_asserts` and `replace_args`. Each is a
  method that updates objects in place and is proved equal to a
  specification function.
- `Body`: `replace_body`.
- `GConfig`: `get_parser`, `parse_field` and `parse_gconfig`. The
  global-config store is a map, and the three value parsers are one opaque
  function.
- `FlowParams`: `parse_params`, as written and as corrected (see Findings).
- `Assertions`: `translate`, `ops` and `my_assert`. The JsonCompare diff and
  the message renderer are parameters.
- `Dispatch`: `get_constructor_type` and the guards of `execute_constructor`.
- `ExecutorState`: `__init__`'s shared log and main flag, `append`, and the
  `logs` entry that `run` adds.
- `Outcome`: a run's status code, the per-case status lists, and the counting
  loop and plan verdict of `run_multiple`.

Two constants come from configuration whose text is not part of this model:

- The constructor type codes. testcase = 0 and sql = 1 appear in the source's
  own commented-out dispatcher. redis = 2 and py_script = 3 are assumed.
- `BodyType.json`, taken as 1, the default of `replace_body`'s `body_type`.

The case-log and lock decorators are taken to be transparent. Their code is not part of this model.

Two behaviours of the code a reader may not expect:

- An out-of-range index in the middle of a `replace_params` walk raises
  `IndexError`, which aborts the rewrite. It does not skip the token
  (`Resolver.IndexOutOfRangeExample`).
- `parse_variable` never treats a numeric segment as an index (see Findings).

## Model

| member | source | states |
|---|---|---|
| ElExpression.CloseOffset | app/core/executor.py:37-38 | the lazy group ends at the first `}`, and no `}` or line break comes before it; with no such `}`, every `}` is preceded by a line break |
| ElExpression.Tokens | app/core/executor.py:517-522 | each match uses at least four characters (`${`, one group character, `}`), so a string of length n has at most n/4 tokens |
| ElExpression.GetElExpression | app/core/executor.py:517-522 | a None field has no tokens |
| ElExpression.NoOpenerNoTokens | app/core/executor.py:517-522 | a string without `${` yields no tokens |
| ElExpression.TokensOccur | app/core/executor.py:517-522 | every token is non-empty, has no line break and no `}` after its first character, and `${v}` occurs in the input |
| ElExpression.LeadingToken | app/core/executor.py:37-38 | matching runs left to right and finds every occurrence: behind any prefix without `${`, a well-formed `${v}` yields `v`, then exactly the tokens of the rest |
| Resolver.Decoded | app/core/executor.py:128-134 | only a string is decoded before a step; other values are used as they are |
| Resolver.Descend | app/core/executor.py:135-139 | a non-index segment succeeds exactly on a dict, and yields `.get(seg)` (None when missing) |
| Resolver.WalkPath | app/core/executor.py:125-139 | the step-by-step walk ends where the recursive definition `Walk` ends |
| Resolver.Substitution | app/core/executor.py:121-146 | a falsy or missing first segment gives no entry; outside `request_headers` every replacement is text; no replacement is None |
| Resolver.SubstitutionOfWalk | app/core/executor.py:139-146 | a token whose walk reaches a value is replaced by that value when it is text, and by its JSON text outside `request_headers` otherwise |
| Resolver.ReplaceParams | app/core/executor.py:116-147 | the loop builds exactly the `new_data` of the specification; a None field gives an empty dict |
| Resolver.SubstitutionKeys | app/core/executor.py:119-146 | every key is `${v}` for a token `v` seen, and outside the header field every value is text |
| Resolver.ReplaceParamsKeys | app/core/executor.py:116-147 | every key of the result is `${v}` for an extracted token `v`; outside `request_headers` every value is text |
| Resolver.MissingFinalKey | app/core/executor.py:140-145 | a missing final key becomes the text `null` outside the header field, and is skipped inside it |
| Resolver.WalkKey | app/core/executor.py:138-139 | a key segment at a dict moves to that member |
| Resolver.WalkIndex | app/core/executor.py:135-137 | a digit segment at a list moves to that element, or raises when out of range |
| Resolver.WalkDecoded | app/core/executor.py:128-134 | a string holding a JSON object is decoded before the key is looked up |
| Resolver.MissingKeyExample | app/core/executor.py:138-141 | `${a.b}` against `{"a": {"x": 1}}` in the body becomes `"null"` |
| Resolver.IndexExample | app/core/executor.py:135-137 | `${a.b.0}` against `{"a": {"b": ["x","y"]}}` resolves to `x` |
| Resolver.IndexOutOfRangeExample | app/core/executor.py:135-137 | the same path against an empty list raises, aborting the rewrite |
| Resolver.DoublyEncodedWalk | app/core/executor.py:128-139 | a nested JSON string is decoded mid-walk, and the walk continues inside it |
| Resolver.DoublyEncodedExample | app/core/executor.py:128-141 | with `b` stored as the text `{"c":1}`, `${a.b.c}` is substituted as `"1"` |
| Resolver.ParseVariable | app/core/executor.py:532-561 | the loop returns exactly the specification `ResolveVariable` |
| Resolver.TokenFreeUnchanged | app/core/executor.py:536-538 | a string with no `${` is returned unchanged |
| Resolver.WholeResponseRaw | app/core/executor.py:559-560 | exactly `${response}` yields the raw `response` entry, not serialised |
| Resolver.TopLevelToken | app/core/executor.py:539-561 | any other single-name token yields the JSON text of that entry, `null` when missing |
| Resolver.NumericSegmentNotIndexed | app/core/executor.py:552-556 | segment `0` picks a list's first element in replace_params, but raises in parse_variable |
| Resolver.WalkWithoutDigits | app/core/executor.py:552-556 | without digit segments the indexing and non-indexing walks agree |
| Resolver.IndexedAgreesOnKeys | app/core/executor.py:552-556 | the corrected parse_variable differs from the one as written only on paths with a numeric segment |
| Resolver.ResponseIndexFails | app/core/executor.py:552-556 | for a response body `[7]`, `${response.0}` fails to resolve as written |
| Resolver.ResponseIndexResolves | app/core/executor.py:552-556 | with digit segments as indexes, the same token resolves to `"7"` |
| Entities.TestCase.Set | app/core/executor.py:108 | `setattr` changes the named field and no other |
| Rewrite.FieldStep | app/core/executor.py:334-341 | a None field stays None (the `continue`), and a text field stays text |
| Rewrite.FieldsPass | app/core/executor.py:333-341 | one pass over the fields keeps one value per field, leaves the fields before its start alone, and never turns a None field into text or a text field into None |
| Rewrite.ReplaceClsFrom | app/core/executor.py:332-341 | the outer loop over the params keeps one value per field |
| Rewrite.ReplaceCls | app/core/executor.py:331-341 | the nested loops leave the fields, and the success flag, exactly as the specification `ReplaceClsSpec` says |
| Rewrite.FieldsPassKeeps | app/core/executor.py:337 | a field that does not contain the key is left as it was by that pass |
| Rewrite.ReplaceClsFromKeeps | app/core/executor.py:332-341 | a None field, or one containing no params key, is unchanged by the remaining passes |
| Rewrite.UntouchedFieldKept | app/core/executor.py:331-341 | a None field, or one in which no params key occurs, is unchanged by replace_cls |
| Rewrite.NoParamsNoChange | app/core/executor.py:332 | empty params change nothing |
| Rewrite.ReplaceEachFrom | app/core/executor.py:353-361 | the per-object loop keeps one value per object |
| Rewrite.EachUntouchedKept | app/core/executor.py:353-361 | an untouched object's field is unchanged by the per-object loop |
| Rewrite.ReplaceTestcase | app/core/executor.py:349-351 | only `request_headers`, `body` and `url` change, as replace_cls on those three fields says |
| Rewrite.ReplaceConstructors | app/core/executor.py:353-356 | only `constructor_json` changes, object by object, stopping at the first exception |
| Rewrite.ReplaceAsserts | app/core/executor.py:358-361 | only `expected` changes, object by object, stopping at the first exception |
| Rewrite.ReplaceArgs | app/core/executor.py:343-347 | the case's three fields, every `constructor_json` and every `expected` end as `ReplaceArgsSpec` says of their old values, and the flag says whether all three stages completed |
| Rewrite.EachNoParams | app/core/executor.py:353-361 | with no parameters, the per-object loop keeps every object's field and completes |
| Rewrite.ReplaceArgsNoParams | app/core/executor.py:343-347 | with no parameters, replace_args completes and leaves the case, every constructor and every assertion as they were |
| Body.Rewritten | app/core/executor.py:416-418 | the decoded body keeps exactly its keys: none is added |
| Body.ReplaceBody | app/core/executor.py:408-423 | the method returns exactly the specification `ReplaceBodySpec` |
| Body.RewrittenEntries | app/core/executor.py:416-418 | each key keeps its place, and takes the request value only when its current value is not null |
| Body.OtherBodyTypesUntouched | app/core/executor.py:410-412 | a body type other than JSON returns the body unchanged |
| Body.UndecodableUntouched | app/core/executor.py:421-423 | a body that fails to decode is returned unchanged |
| Body.EmptyParamsRedumped | app/core/executor.py:414-419 | with no request params, a JSON body is re-serialised as it was decoded |
| Body.NullOrMissingNotAdded | app/core/executor.py:417 | a key whose value is null or missing is not written |
| Body.ExampleBody | app/core/executor.py:413-419 | `{"a": 1, "b": null}` with `{"a":2,"b":3,"c":4}` becomes `{"a": 2, "b": null}` |
| Body.ExampleDump | app/core/executor.py:419 | the serialisation of that result, with Python's separators |
| Body.ExampleRewrite | app/core/executor.py:416-418 | the decoded dict of that example after the loop |
| GConfig.GetParser | app/core/executor.py:81-90 | a parser exists exactly for key types 0, 1 and 2; any other raises |
| GConfig.ParseField | app/core/executor.py:92-114 | the field and the flag are those of the specification `ParseFieldSpec`; no other field changes |
| GConfig.Snapshot | app/core/executor.py:92-114 | the snapshot holds each field's current value |
| GConfig.ParseGconfig | app/core/executor.py:73-78 | the fields are processed in turn, as the specification `GconfigFrom` says |
| GConfig.FieldFromOk | app/core/executor.py:100-110 | parse_field completes exactly when every token's key is absent from the store or has a valid key type with a parse result |
| GConfig.UnknownKeysUntouched | app/core/executor.py:103 | tokens whose key is not in the store leave the field unchanged |
| GConfig.InvalidKeyTypeAborts | app/core/executor.py:105 | a stored variable with an unknown key type aborts the field unchanged |
| GConfig.HostExample | app/core/executor.py:92-114 | `${host}/users` with a string variable `host` becomes `http://x/users` |
| GConfig.HostTokens | app/core/executor.py:99 | `${host}/users` has the one token `host` |
| GConfig.HostReplaced | app/core/executor.py:107 | the replacement of `${host}` in that field |
| FlowParams.LastReplaceFrom | app/core/executor.py:155-157 | the loop over the substitutions completes exactly when every replacement is text; with none, the column keeps its text |
| FlowParams.ParseParamsAsWritten | app/core/executor.py:149-161 | as written: a None column stays None and a column stays text; a token-free column is unchanged; completing needs replace_params to succeed, and its failure leaves the column as it was |
| FlowParams.ParseParamsField | app/core/executor.py:149-161 | the same promises for the corrected version, which chains the replacements |
| FlowParams.StringParam | app/core/executor.py:121-146 | a one-segment token naming a non-empty string parameter is replaced by that string |
| FlowParams.TwoSubstitutions | app/core/executor.py:116-147 | `${a}${b}` with a = "1" and b = "2" yields both replacements, in order |
| FlowParams.AsWrittenKeepsLast | app/core/executor.py:155-157 | as written, only the last replacement survives, applied to the original text |
| FlowParams.AgreeOnOneSubstitution | app/core/executor.py:155-157 | with at most one replacement, the code as written and the corrected version agree |
| FlowParams.AsWrittenDropsFirst | app/core/executor.py:155-157 | as written, `${a}${b}` becomes `${a}2` |
| FlowParams.CorrectedReplacesBoth | app/core/executor.py:155-157 | corrected, `${a}${b}` becomes `12` |
| Assertions.Translate | app/core/executor.py:525-529 | decoding succeeds exactly on a string that `json.loads` accepts, with no fallback |
| Assertions.Ops | app/core/executor.py:462-515 | an unknown tag gives `(False, unsupported)`; a passing verdict implies a known tag |
| Assertions.Judge | app/core/executor.py:440-458 | an exception is raised exactly when both sides resolved and then decoding either side, or the comparison, raised; a passing verdict needs both sides resolved and decoded |
| Assertions.Judged | app/core/executor.py:439-458 | one verdict per assertion, in order, under its id |
| Assertions.Tally | app/core/executor.py:439-459 | the fold completes exactly when no assertion raised |
| Assertions.MyAssert | app/core/executor.py:430-459 | the loop returns the fold of the verdicts; no assertions give an empty table and `True` |
| Assertions.NoAssertions | app/core/executor.py:436-438 | no assertions give `("{}", True)` |
| Assertions.EqualComplement | app/core/executor.py:466-473 | `equal` and `not_equal` always give opposite statuses |
| Assertions.MembershipComplement | app/core/executor.py:474-481 | `in` and `not_in` raise exactly when `a in b` raises; otherwise `in` passes when `a in b` holds, and `not_in` passes when it does not |
| Assertions.ContainmentComplement | app/core/executor.py:482-489 | `contain` and `not_contain` test `b in a`, with the operands swapped, and raise exactly when that test raises; otherwise `contain` passes when it holds, and `not_contain` passes when it does not |
| Assertions.LengthTable | app/core/executor.py:490-509 | each length operator compares the expected count on the left with `len(b)` |
| Assertions.LengthErrors | app/core/executor.py:490-509 | a right side without a length, or a left side that is not a number (except for `length_eq`), raises |
| Assertions.LengthExample | app/core/executor.py:494-509 | `length_gt(2, [1,2,3])` fails and `length_lt(2, [1,2,3])` passes |
| Assertions.JsonEqualIffNoDiff | app/core/executor.py:510-514 | `json_equal` passes exactly when the diff is empty |
| Assertions.ResolveErrorRecorded | app/core/executor.py:440-449 | a resolution error on the expected side, or else on the actual side, records a failed verdict carrying that side's error, without raising |
| Assertions.TallyOutcome | app/core/executor.py:439-459 | the overall result is true exactly when every verdict passed |
| Assertions.TallyFirstError | app/core/executor.py:450-458 | the exception re-raised is the one of the first assertion whose decoding or comparison raised |
| Assertions.TallyTable | app/core/executor.py:439-459 | the table maps each assertion id to its verdict and keeps earlier entries |
| Assertions.TallyRecords | app/core/executor.py:439-459 | by induction over the verdicts: the fold succeeds, appends each new id once, in order, records its verdict, and leaves every other key alone |
| Assertions.TallyResult | app/core/executor.py:439-459 | with distinct ids, the table lists the verdicts in order, and the result is their conjunction |
| Assertions.MyAssertTable | app/core/executor.py:430-459 | my_assert's table holds each assertion's own verdict, and its result is true exactly when all passed |
| Assertions.StatusCodeExample | app/core/executor.py:440-453 | expected `200` against `${status_code}` = 200 under `equal` passes |
| Assertions.StatusCodeResolves | app/core/executor.py:532-561 | `${status_code}` resolves to the text `200` |
| Dispatch.GetConstructorType | app/core/executor.py:55-64 | a handler exists exactly for type codes 0 to 3 |
| Dispatch.CodeRoundTrip | app/core/executor.py:55-64 | each handler is reached by its own code and no other |
| Dispatch.GuardRuns | app/core/executor.py:177-185 | a constructor is dispatched exactly when enabled with a known type, and then to its own handler; a disabled one is skipped first |
| ExecutorState.Executor.constructor | app/core/executor.py:42-48 | without a log the executor is main with a fresh empty log; with one, it shares it and is not main |
| ExecutorState.Executor.Append | app/core/executor.py:66-70 | both branches append the line with its flag to the shared log |
| ExecutorState.NestedAppend | app/core/executor.py:42-48 | a nested executor writes into its parent's log |
| ExecutorState.AttachLogsEffect | app/core/executor.py:316-317 | only a main executor adds `logs`, holding the joined log, and it changes no other entry |
| Outcome.Classify | app/core/executor.py:371-377 | status 2 exactly on error; 0 exactly without error and with a truthy status; otherwise 1 |
| Outcome.ResultData.Append | app/core/executor.py:390 | the status is appended to the case's list |
| Outcome.RecordRun | app/core/executor.py:371-390 | the classified status of a run is appended under its case id |
| Outcome.AppendAddsOne | app/core/executor.py:390 | appending adds one occurrence of that status code and none of any other |
| Outcome.AppendLength | app/core/executor.py:390 | appending adds exactly one recorded status |
| Outcome.AppendBumps | app/core/executor.py:390 | appending bumps exactly one counter |
| Outcome.CountStatuses | app/core/executor.py:627-637 | the counting loop gives the counts of all recorded statuses |
| Outcome.CountTotal | app/core/executor.py:627-637 | ok + fail + error + skip equals the number of recorded statuses |
| Outcome.CountSnoc | app/core/executor.py:629-637 | counting one more status bumps its counter; codes outside 0 to 2 count as skip |
| Outcome.CountsAreOccurrences | app/core/executor.py:630-635 | ok, fail and error count the occurrences of 0, 1 and 2 |
| Outcome.PlanVerdict | app/core/executor.py:653 | the plan passes exactly when some status is recorded and none is 1 or 2 |
| Outcome.ClassifiedNeverSkipped | app/core/executor.py:371-377 | statuses from run_with_test_data never count as skipped |
| Outcome.SkipZero | app/core/executor.py:627-637 | statuses in 0 to 2 are split exactly into ok, fail and error |

## Left out

- Database, HTTP, Redis and email calls (the DAOs, `AsyncRequest`, `Email`) are left out. Their results enter as parameters: the case and its rows, the response dict, the global-config store.
- `asyncio.gather` fan-out, the `ordered` loop and the `@lock("test_plan")` decorator in `run_single`, `run_multiple` and `run_test_plan`: concurrency and orchestration. The counts are stated over the final per-case status lists.
- `execute_constructors` and the handler classes' `run`: the handlers' code is not part of this model. Only the dispatch guard is modelled.
- The `run` pipeline itself is not modelled as one operation. Its steps are modelled one by one; the order comes from the source.
- `json.loads`, the `JsonCompare` diff, the three global-config parsers and `CaseLog.join`: their code is not part of this model, so they are parameters.
- Floating-point JSON numbers and `1 == 1.0`: floats are not modelled.
- Clock, cost formatting and log wording: message texts are symbolic (`Msg`). The model records verdicts and log lines, not the Chinese wording or Python's `str()` of values.
- `str.isdigit` accepts non-ASCII digits in Python; the model accepts `0`-`9` only.
- Non-string ORM columns (`replace_params` returns `{}` for them): the model's fields are the text columns, each `Option<string>`.
- FlowParams.ParseParamsAsWritten: modelled one column at a time, not as the loop over `data.__table__.columns`.
- Assertions.MyAssertTable: requires distinct assertion ids. With a repeated id, Python's dict keeps the last verdict under the first position.
- Rewrite.ReplaceConstructors and Rewrite.ReplaceAsserts: require the listed objects to be distinct. The rows the store returns are separate objects; aliasing is not modelled.
- Rewrite.ReplaceArgs: requires the constructors, and the assertions, to be distinct objects, for the same reason.
- Body.RewrittenEntries: requires unique keys, as a decoded JSON object and a Python dict have.
- `add_header` (deprecated, never called) and the commented-out dispatcher are left out.

## Findings

| source | as written | input that shows it | evidently intended | confidence | as-written member | corrected member |
|---|---|---|---|---|---|---|
| app/core/executor.py:155-157 | every replacement starts from `field_origin`, so only the last survives | url `${a}${b}` with a = "1", b = "2" becomes `${a}2` | chain the replacements, giving `12` | not executed | FlowParams.AsWrittenDropsFirst | FlowParams.CorrectedReplacesBoth |
| app/core/executor.py:552-556 | `isinstance(branch, int)` is never true for a `split` segment, so `.get` is called on a list | response body `[7]` and `${response.0}`: resolution fails | index digit segments, as replace_params does | not executed | Resolver.ResponseIndexFails | Resolver.ResponseIndexResolves |
