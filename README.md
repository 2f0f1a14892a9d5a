# slash-slack, modelled in Dafny

slash-slack is a small Python framework for building a Slack slash-command bot.
Functions are registered as commands with a decorator. The parameters of each function
are read into a schema of positional arguments, boolean flags and an optional request
parameter. Each incoming request is authenticated with Slack's request-signing scheme.
Its text is split into a command word, argument words and `--flags`. The request then
gets one of five answers: global help, "command not found", command help, "invalid
arguments", or a call of the handler with typed arguments. The handler's return value
becomes a Block Kit message.

This project models that core:

| module | file | what it models |
|---|---|---|
| `Common` | `common.dfy` | `Option`, `Result` and the framework's exceptions (`slash_slack/exceptions.py`) |
| `PyStr` | `pystr.dfy` | the Python `str` builtins the core relies on: `strip()` with Python's whitespace set, `split(" ")`, `" ".join`, `int()` on a decimal literal, ASCII `lower()` |
| `ArgTypes` | `argtypes.dfy` | the argument types and their `parse` (`slash_slack/arg_types.py`) |
| `CommandText` | `commandtext.dfy` | `_parse_command_text`: the flag regular expression, its substitution, and the command/argument split |
| `FuncParams` | `funcparams.dfy` | `_parse_func_params`, the loop that turns a handler's parameters into a schema, as an imperative method |
| `SlashCommand` | `slashcommand.dfy` | `SlashSlackCommand.parse_args`, both as written and corrected, and the argument array `execute` fills, as a method over an `array` |
| `Blocks` | `blocks.dfy` | `_make_block_message` and the two block builders |
| `Signature` | `signature.dfy` | `SignatureVerifier` |
| `App` | `app.dfy` | the `SlashSlack` class: the signing-secret check, the command registry the decorator fills, and the endpoint's decision for a request |

Some parts are outside the model and are passed in as parameters instead:

- Python's `float()` is the parameter `rd: RealReader`, a function from a string to `Option<real>`.
- HMAC-SHA256 with hex output is the parameter `mac`, a function of the secret and the message.
- The clock reading is the parameter `now`, in seconds.

Two places where the code cannot run as shown:

- `slash_slack/slash_slack_command.py` is older than `slash_slack/slash_slack.py`. It imports `String`, `UnknownLengthList` and `slash_slack.flag`, which `slash_slack/arg_types.py` does not define under those names. The model reads `String` as `StringType` and `UnknownLengthList` as `UnknownLengthListType`.
- The decorator (`slash_slack/slash_slack.py:201-210`) passes `request_arg`, `help`, `summary` and `is_async` to a constructor that does not accept them. The model keeps the schema the decorator computes, including the request parameter.

## Model

| member | source | states |
|---|---|---|
| `ArgTypes.IntParse` | slash_slack/arg_types.py:55-64 | An int argument parses to `IntValue(i)` exactly when the text is an integer literal of value `i` within the optional minimum and maximum. Otherwise it gives None. |
| `ArgTypes.IntBoundsRoundTrip` | slash_slack/arg_types.py:55-64 | The decimal text of an integer parses back to that integer exactly when it lies within the bounds. |
| `ArgTypes.FloatParse` | slash_slack/arg_types.py:28-37 | A float argument parses to the value `float()` reads exactly when that value is not above the maximum and not below the minimum. An unreadable text gives None. |
| `ArgTypes.FloatBoundsRoundTrip` | slash_slack/arg_types.py:28-37 | When `float()` reads integer literals up to 2^53 in magnitude as their values, as Python's does, the decimal text of every such integer parses to that number exactly when it lies within the bounds, and fails outside them |
| `ArgTypes.StringParse` | slash_slack/arg_types.py:84-95 | A string argument is accepted unchanged exactly when its length is within the optional length bounds. |
| `ArgTypes.EnumParse` | slash_slack/arg_types.py:110-114 | An enum argument is accepted unchanged exactly when it is one of the allowed values. |
| `ArgTypes.ParseList` | slash_slack/arg_types.py:125-131 | A list parses exactly when every element parses. The result has one value per element, in order, each the element's parse. |
| `ArgTypes.ParseUnknownLengthList` | slash_slack/arg_types.py:125-131 | The loop that parses each element and then rejects the list if any element failed returns the same result as `ParseList`. |
| `ArgTypes.ParseExamples` | slash_slack/arg_types.py:55-131 | Values from the test suite: `1.0` is not an int, `-100` is, `-10` breaks a minimum of 10, a nine-character string breaks a minimum length of 10, an enum rejects `""`, and the empty list parses to the empty list. |
| `ArgTypes.ListOfStringIteratesCharacters` | slash_slack/arg_types.py:125-131 | A list type handed a string iterates its characters, so `"one"` gives `["o", "n", "e"]`. |
| `CommandText.ParseCommandText` | slash_slack/slash_slack.py:256-262 | The command word never contains a space. |
| `CommandText.EmptyLine` | slash_slack/slash_slack.py:256-262 | An empty line gives an empty command, empty arguments and no flags. |
| `CommandText.FlagsAreDashedTokens` | slash_slack/slash_slack.py:253-257 | On a line separated by plain spaces, `name` is a flag exactly when `name` is non-empty and `--name` is one of the line's space-separated pieces. |
| `CommandText.ArgsAreWords` | slash_slack/slash_slack.py:258-261 | Splitting the arguments on single spaces gives no empty piece, so runs of spaces between arguments collapse to one. |
| `CommandText.CommandAndArgsAreTheWords` | slash_slack/slash_slack.py:257-261 | On a line separated by plain spaces, the command followed by the argument words is exactly the line's non-flag words, in order. |
| `CommandText.ResidueWords` | slash_slack/slash_slack.py:257-258 | After the flag tokens are removed, the remaining words are the non-flag tokens in order, and only plain spaces separate them. |
| `CommandText.OnlyFlagsEmptyCommand` | slash_slack/slash_slack.py:256-262 | On a line separated by plain spaces, a line made only of flags has an empty command and empty arguments |
| `CommandText.Idempotent` | slash_slack/slash_slack.py:256-262 | On a line separated by plain spaces, the arguments of a parsed line hold no flag. Rebuilding the line from its command and arguments parses back to the same command and arguments, with no flags |
| `CommandText.NewlineKeepsFlagInArgs` | slash_slack/slash_slack.py:253-262 | Idempotence fails when other whitespace separates words: `x --a\n --b` has the arguments `--a`, and those arguments parse to the flag `a`. |
| `CommandText.LineOfWords` | slash_slack/slash_slack.py:256-262 | A line of non-flag words separated by single spaces gives its first word as the command, the rest as the arguments, and no flags. |
| `FuncParams.ParseFuncParams` | slash_slack/slash_slack.py:265-326 | The method fails exactly when some parameter is in error, and then reports the error of the first such parameter. Errors are a second request parameter, a positional after a list, an invalid default, or an invalid annotation. On success the schema lists, in order and with their indices, the positional parameters with their resolved types, the flags and the request parameter. Only the last positional can be a list. |
| `FuncParams.ClassifyParam` | slash_slack/slash_slack.py:271-325 | One turn of the loop over the parameters. It reports exactly the error the parameter raises. When there is none, the extended schema classifies one more parameter, and the list flag is set exactly when the new last positional is a list. |
| `FuncParams.IndicesOfMeaning` | slash_slack/slash_slack.py:271-286 | An index is recorded for a role exactly when the parameter at that index has that role. Recorded indices are strictly increasing. |
| `FuncParams.Partition` | slash_slack/slash_slack.py:271-326 | In a schema that describes a handler, every parameter index appears in exactly one of the positional, flag and request lists, namely its role's. |
| `FuncParams.DescribesUnique` | slash_slack/slash_slack.py:265-326 | A handler has at most one schema, so the schema is a function of the parameters. |
| `FuncParams.FlagExample` | slash_slack/slash_slack.py:284-325 | `t(s=String(), f=FlagType(), s2=String(), f2=FlagType())` gives positionals `s@0` and `s2@2` of type String, flags `f@1` and `f2@3`, and no request parameter |
| `SlashCommand.ParsePairwise` | slash_slack/slash_slack_command.py:46-51 | Pairwise parsing succeeds exactly when every token parses with the type at its position. The result has one value per token, each that token's parse. |
| `SlashCommand.AsWrittenSoleString` | slash_slack/slash_slack_command.py:31-36 | A sole string parameter receives the whole argument text, spaces included, subject to its length bounds. |
| `SlashCommand.AsWrittenSoleList` | slash_slack/slash_slack_command.py:38-42 | A sole list parameter's result, as written, is the list of parsed tokens itself rather than a one-element list holding it. |
| `SlashCommand.AsWrittenCountMismatch` | slash_slack/slash_slack_command.py:44-45 | In every other case a token count that differs from the parameter count gives None. |
| `SlashCommand.AsWrittenPairwise` | slash_slack/slash_slack_command.py:46-51 | When the counts agree, the result is the pairwise parse. |
| `SlashCommand.AsWrittenNoArguments` | slash_slack/slash_slack_command.py:38-51 | A command without parameters accepts exactly the argument texts that hold no word. |
| `SlashCommand.SoleListUnwrapped` | slash_slack/slash_slack_command.py:39-42 | As written, two or more words for a sole list parameter yield more values than there are parameters. |
| `SlashCommand.TrailingListGetsOneToken` | slash_slack/slash_slack_command.py:44-51 | As written, for `(String, List(String))`, the text `x y` binds `x` and the characters of `y`. |
| `SlashCommand.TrailingListRejectsSeveral` | slash_slack/slash_slack_command.py:44-45 | As written, the same schema rejects `t a b c`. |
| `SlashCommand.ParseArgs` | slash_slack/slash_slack_command.py:30-51 | The corrected parser binds exactly one value per parameter whenever it succeeds. |
| `SlashCommand.BindTrailingListMeaning` | slash_slack/slash_slack_command.py:30-51 | Binding tokens to positionals ending in a list succeeds exactly when every token parses and, unless the list is the only positional, there are more tokens than leading positionals. The first tokens are bound one each in order, and the list holds every remaining token's value in order. |
| `SlashCommand.ParseArgsTrailingList` | slash_slack/slash_slack_command.py:30-51 | With a trailing list after n other positionals, parsing succeeds exactly when there are more than n tokens (any number when n is 0) and all of them parse. The first n tokens are bound pairwise and the rest form one list value. |
| `SlashCommand.ParseArgsWithoutList` | slash_slack/slash_slack_command.py:30-51 | Without a trailing list the corrected parser agrees with the code as written. |
| `SlashCommand.ParseArgsTrailingListExample` | tests/test_slash_slack_command.test.py:94-106 | `test a b c` binds `["test", ["a", "b", "c"]]`. |
| `SlashCommand.ParseArgsTrailingListTooFew` | tests/test_slash_slack_command.test.py:108-109 | `test` alone is rejected by the same schema. |
| `SlashCommand.ParseArgsSoleListExample` | slash_slack/slash_slack_command.py:39-42 | A sole list parameter given `a b` binds `[["a", "b"]]`. |
| `SlashCommand.SchemaIndicesDistinct` | slash_slack/slash_slack.py:271-326 | The indices recorded in a schema are below the handler's arity. The positional and flag indices each strictly increase, and no positional index equals a flag index. |
| `SlashCommand.HydrateFuncArgs` | slash_slack/slash_slack_command.py:60-64 | The argument array has one slot per handler parameter. Filling it fails (the IndexError) exactly when there are more values than positional parameters. Otherwise each value lands at its parameter's index, each flag slot holds whether that flag was given, and every other slot is None. |
| `SlashCommand.FillValues` | slash_slack/slash_slack_command.py:61-62 | Starting from an array of empty slots, each value is written at its positional parameter's index, and every slot no written value names stays empty. |
| `SlashCommand.FillFlags` | slash_slack/slash_slack_command.py:63-64 | Each flag slot ends up holding whether that flag was given. The slots of the positional values, and every slot no flag names, are left as they were. |
| `Blocks.MrkdwnBlockText` | slash_slack/blocks.py:4-14 | A mrkdwn section block gives back its text and is not a header block. |
| `Blocks.HeaderBlockText` | slash_slack/blocks.py:17-27 | A header block gives back its heading and is not a section block. |
| `Blocks.FormattedAppend` | slash_slack/blocks.py:56-62 | Formatting distributes over concatenation of lists. |
| `Blocks.FormattedLength` | slash_slack/blocks.py:56-62 | A list yields one block per str or dict item and none for any other item. |
| `Blocks.FormattedIsFilterThenMap` | slash_slack/blocks.py:56-62 | The blocks are the str and dict items, in their order, each turned into its block. |
| `Blocks.FormattedStrings` | slash_slack/blocks.py:57-59 | A list of strings gives one mrkdwn section per string, in order. |
| `Blocks.MakeBlockMessage` | slash_slack/blocks.py:30-71 | None or `""` gives `{}`. Anything else gives exactly the keys `blocks` and `response_type`. The blocks are the content's blocks, preceded by a header block when a non-empty header is given. The response type is `in_channel` or `ephemeral` according to visibility. |
| `Signature.GenerateSignature` | slash_slack/signature_verifier.py:61-76 | A signature exists exactly when a timestamp is given. It is `v0=` followed by the digest of `v0:{timestamp}:{body}`, and a missing body signs as the empty string. |
| `Signature.Lookup` | slash_slack/signature_verifier.py:32-34 | A header is found exactly when some header's lower-cased name matches. The value found is that of the last such header, as the dict comprehension keeps |
| `Signature.MissingHeadersRefused` | slash_slack/signature_verifier.py:30-36 | No headers, or a missing or empty timestamp or signature header, is a refusal. |
| `Signature.LookupCaseInsensitive` | slash_slack/signature_verifier.py:32-34 | Changing the letter case of a header name does not change what a lookup finds. |
| `Signature.RequestCaseInsensitive` | slash_slack/signature_verifier.py:24-41 | Changing the letter case of a header name does not change the verdict. |
| `Signature.StaleRefused` | slash_slack/signature_verifier.py:53-54 | A timestamp more than 300 seconds from now is refused, whatever the signature. The exception is a timestamp of 2^1024 - 2^970 or more in magnitude: it is too large for a float, so the subtraction raises OverflowError (None, answered with 500) |
| `Signature.InWindowComparesSignature` | slash_slack/signature_verifier.py:53-59 | Within 300 seconds (inclusive), the verdict is whether the signature equals the generated one. The comparison raises instead (None, answered with 500) when either signature holds a non-ASCII character, or when the timestamp is too large for a float |
| `Signature.SignedRequestAccepted` | slash_slack/signature_verifier.py:24-76 | A request carrying the signature generated for its own timestamp and body, within the window, is accepted. The timestamp must fit in a float, and the digest is assumed ASCII, as a hex digest is |
| `Signature.BaseStringInjective` | slash_slack/signature_verifier.py:72 | For timestamps without a colon, the signed base string determines the timestamp and the body. |
| `Signature.TamperingRefused` | slash_slack/signature_verifier.py:56-76 | With a collision-free digest whose output is ASCII, a signature made for one timestamp and body is refused for any other timestamp or body. The one exception is a timestamp too large for a float, which raises (None) |
| `App.RouteOutcomes` | slash_slack/slash_slack.py:114-148 | Each of the five outcomes happens exactly under its condition, in the order tried: global help (`help` as the command in any case, or `--help` without a command), command not found, command help, invalid arguments, dispatch. The help outcomes carry the `--visible` flag. |
| `App.DispatchFlags` | slash_slack/slash_slack.py:127-148 | On dispatch the command's own flags and the global flags partition the line's flags. Neither `help` nor `visible` reaches the handler. |
| `App.DispatchBindsEveryArgument` | slash_slack/slash_slack.py:133-148 | In a registry of described handlers, a dispatched command binds one value per positional parameter. |
| `App.SlashSlack.Create` | slash_slack/slash_slack.py:76-83 | Construction fails with the no-signing-secret error exactly when not in dev mode and no secret is given. Otherwise the registry is empty and the verifier holds the secret. |
| `App.SlashSlack.Command` | slash_slack/slash_slack.py:194-211 | Registering a name already present fails with the duplicate-command error and leaves the registry unchanged. Otherwise the registration fails exactly when a handler parameter is in error, and the error reported is that of the first such parameter; the registry is again unchanged. On success only the new name is added, and the registry stays well formed |
| `App.SlashSlack.Handle` | slash_slack/slash_slack.py:85-148 | A request is routed exactly in dev mode or when its signature verifies. The routing uses the stripped text. Otherwise the answer is 500 exactly when there is no verifier or verification raises: a malformed timestamp, a timestamp too large for a float, or a non-ASCII signature. Every other refusal is 403 |
| `App.RegistryExample` | slash_slack/slash_slack.py:194-211 | On a fresh app, registering `echo` succeeds. A second registration of `echo` is refused with the duplicate-command error, and the registry still holds exactly `echo` with its first handler. |

## Left out

- HTTP plumbing (FastAPI): reading the form body and parsing it with `parse_qsl`, the 422 answer for a form that fails validation, background tasks, logging. The request record is reduced to its `text`, headers and body.
- The `ssl_check` branch (`slash_slack/slash_slack.py:103-104`): it compares a string with the integer 1 and can never be taken.
- `before_request` functions and the `is_async` choice: they schedule work and do not change the answer.
- The catch-all that turns an exception during routing into the "unable to respond" message (`slash_slack/slash_slack.py:151-155`). Every routing step in the model is total, and the int-timestamp `ValueError` is modelled as `None` answering 500.
- The texts of global help, command help, "command not found" and "invalid arguments", and the `help`, `summary` and `contact` strings. The model returns which of those messages is sent, not its wording.
- The acknowledgement response and the call of the handler with the filled argument array. The POST of the block message to `response_url` (aiohttp) is also left out.
- `hmac.compare_digest` is string equality, with its TypeError on a non-ASCII argument. Its constant-time behaviour is not modelled.
- Decoding a bytes body as UTF-8: bodies are strings.
- `ArgTypes.IntParse` (and the timestamp check of `Signature.IsValid`, which uses the same `PyStr.ParseInt`) reads `int()` as an optional sign followed by ASCII digits. Python's `int()` also accepts surrounding whitespace (a token such as `5\n`, since splitting on `" "` keeps tabs and newlines inside tokens), `_` between digits (`1_000`) and non-ASCII decimal digits; the model gives None for those. Python refuses literals of more than 4300 digits, which the model accepts.
- `ArgTypes.FloatParse` treats `float()` as a parameter with a real result. NaN, whose comparisons are all false so that it passes any bounds, and the infinities (`float("inf")`, `float("1e999")`), which an unbounded Float accepts and a bounded one compares, are not modelled.
- `PyStr.Lower` lowers ASCII letters only. Python's `str.lower` covers all of Unicode.
- `CommandText.FlagsAreDashedTokens`, `CommandText.CommandAndArgsAreTheWords`, `CommandText.OnlyFlagsEmptyCommand` and `CommandText.Idempotent` are stated only for lines whose whitespace is the plain space. Slack text can carry tabs, newlines and non-breaking spaces, and there idempotence fails (`CommandText.NewlineKeepsFlagInArgs`).
- `parse` on `None` or on non-str values: the handler's text is always a string here. The test suite expects `parse(None)` to give None.
- Injecting the request object into the handler's argument array (`request_arg`): `slash_slack/slash_slack_command.py` has no such step, although the test suite expects one (`tests/test_slash_slack_command.test.py:189-198`). `SlashCommand.HydrateFuncArgs` leaves the request slot empty.
- `SlashCommand.HydrateFuncArgs` takes the handler's arity to be its number of parameters. Python's `co_argcount` leaves out `*args`, `**kwargs` and keyword-only parameters, so for such a handler the source's array is shorter and writing a flag or value at a later index raises IndexError. Parameter kinds are not modelled.
- `FlagType`, the help strings of the argument types and the help text generators (`_generate_command_signature`, `_help`) beyond their role as markers.
- The mock Slack client, the example apps, `slash_slack/arg_functions.py` and `slash_slack/mock_slack.py` are not part of this model.
- `tests/test_slash_slack_command.test.py:105-106` expects a trailing list to take all remaining words. `SlashCommand.ParseArgsAsWritten` follows the code, and the difference is recorded under Findings.

## Findings

| source | as written | input that shows it | evidently intended | confidence | as-written member | corrected member |
|---|---|---|---|---|---|---|
| slash_slack/slash_slack_command.py:39-42 | A sole list parameter returns the parsed list itself as the argument list, one entry per word. `execute` then writes entry i at the index of parameter i, which does not exist from the second entry on. | one parameter `u=UnknownLengthListType(StringType())`, text `a b`: two values for one parameter, and `execute` raises IndexError | `[["a", "b"]]`: one list value bound to the one parameter | high; not executed | `SlashCommand.SoleListUnwrapped` | `SlashCommand.ParseArgsSoleListExample` |
| slash_slack/slash_slack_command.py:44-51 | A trailing list after other positionals gets exactly one token, and the list type iterates that token's characters. | `(s: str, u=UnknownLengthListType(StringType()))` with `test a b c` gives None; with `x abc` it gives `["x", ["a", "b", "c"]]` | `["test", ["a", "b", "c"]]` (`tests/test_slash_slack_command.test.py:105-106`): the list takes every remaining word | high; not executed | `SlashCommand.TrailingListRejectsSeveral` | `SlashCommand.ParseArgsTrailingListExample` |

The router (`App.Route`) uses the corrected `SlashCommand.ParseArgs`.
