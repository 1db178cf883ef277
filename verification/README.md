# Speiseplan-Generator: JSON recovery and recipe coverage

This project models the part of the meal-plan generator (`main_app.py`,
`streamlit_app.py`) that turns unreliable language-model output into a
usable weekly plan with recipes. It covers:

- **Loose JSON recovery.** `sanitize_json_text`, with its fence removal,
  `SMART_QUOTES` table, `_strip_js_comments` and trailing-comma removal.
  Then the total lexer `_json_tokenize`, the comma heuristic
  `_auto_insert_commas`, and the ordered fallback chain `parse_json_loose`.
- **Envelope selection.** `_waehle_root` and
  `_extract_tool_input_from_anthropic`. Also the older application's
  tool-block unwrap, its `bereinigeJSON` cleanup and its checks on the
  recipe answer.
- **Coverage reconciliation.**
  - Expected keys `(woche, tag, menuName, hauptgericht)` come from the plan
    (`_erwarte_rezept_keys`).
  - Produced keys come from the recipes (`_vorhandene_rezepte_keys`). Recipe
    names are cut by `_name_to_hg`.
  - `_delta_missing` gives the keys still missing, and
    `_mini_plan_from_keys` builds the narrowed follow-up plan.
  - The staged mode splits a week into two-day groups, each with at most two
    follow-up generations.
- **Structural validation.** `_validate_day_struct` and
  `_validate_week_struct`, the forcing of a day's menu count to
  `menulinien`, and the predicate that chooses the staged mode.
- **Dish collection and deduplication** in `generiere_rezepte_batch`.

JSON documents are a `Json.Value` datatype. Object members are a sequence
of pairs, and `dict.get` is the first member with that key.

Some functions are specifications. Each imperative loop of the source is a
`method` whose `ensures` ties its result to such a function, and the
source's promises are proved about those functions as lemmas. Examples:
the character loop of `_strip_js_comments`, the lexer loop, the
comma-insertion loop, the bracket stacks, the key and delta loops, the
`defaultdict` index, the validators' error lists, the menu padding, the
retry loop and the dedup dictionary.

Two inputs stay abstract parameters:
- the JSON parser `json.loads`, as `parse: string -> Result<Value, string>`;
- the recipe generator of the retry loop (prompt, HTTP call, answer
  parsing), as `gen: (Plan, nat) -> Option<seq<Recipe>>`.

Where the source's behaviour differs from its own comments or documentation, the model follows the code:
- The trailing-comma removal of `sanitize_json_text` is not idempotent:
  `,,]` becomes `,]` and only a second pass gives `]`
  (`Substitutions.DropTrailingCommasNotIdempotent`).
- `parse_json_loose` first parses the *sanitised* text, not the raw
  text.

The two quote tables are the one exception. As the characters of
main_app.py:18-21 and streamlit_app.py:141-145 stand, each table opens with
a triple-quoted key, and the curly double quotes are no keys at all. The
typographic glyphs were most likely lost in an encoding conversion.
`SanitizeJsonText` and `BereinigeJson` therefore run reconstructed tables:
- `Sanitizer.SmartQuotes` maps U+201C, U+201D and U+201E to `"`, and
  U+2018 and U+201A to `'`. It has no key for U+2019, because
  main_app.py:20 holds only two single-quote keys.
- `Cleanup.Replacements` also maps U+2019, the third single-quote key of
  streamlit_app.py:143.

The tables as written appear only in the Findings lemmas
`Sanitizer.CurlyQuoteSurvivesAsWritten` and
`Cleanup.CurlyQuoteSurvivesCleanupAsWritten`.
- The bracket-span extractor is not aware of strings.

Files, one module each:
- Shared definitions:
  - `wrappers.dfy`: Option and Result.
  - `text.dfy`: Python string primitives.
  - `json.dfy`: JSON values.
- JSON recovery:
  - `substitutions.dfy`: the regular-expression substitutions written out
    by hand.
  - `sanitizer.dfy`: the quote table, comment stripping and
    `sanitize_json_text`.
  - `lexer.dfy`: the tokenizer.
  - `comma_repair.dfy`: `_auto_insert_commas`.
  - `recovery.dfy`: `parse_json_loose`.
  - `cleanup.dfy`: `bereinigeJSON`.
  - `envelope.dfy`: root and tool-input selection.
- Coverage, validation and dishes:
  - `records.dfy`: the plan and recipe records.
  - `keys.dfy`: coverage keys and the delta.
  - `miniplan.dfy`: the follow-up plan.
  - `validate.dfy`: validators, the menu count and the mode.
  - `staged.dfy`: groups and the retry loop.
  - `dishes.dfy`: dish collection and deduplication.

## Model

| member | source | states |
|---|---|---|
| Sanitizer.NormalizeQuotesCharwise | main_app.py:18-21 | The quote table rewrites every character on its own and keeps the length. U+201C, U+201D and U+201E become `"`, U+2018 and U+201A become `'`, and every other character is kept. A typographic quote is left exactly where the text held U+2019, which the table has no key for. |
| Sanitizer.StripJsComments | main_app.py:23-52 | The character loop with its `in_str`/`esc` flags computes `StripComments(s)`, the recursive specification of the same scan. |
| Sanitizer.StripCommentsSubseq | main_app.py:23-52 | Comment stripping only deletes characters: the output is a subsequence of the input. |
| Sanitizer.QuotedRegionVerbatim | main_app.py:27-36 | Inside a quoted region every character, including `//` and `/*`, is copied verbatim up to the closing quote. Scanning then resumes outside the string. |
| Sanitizer.LineCommentDropped | main_app.py:40-44 | A `//` comment is dropped up to, but not including, the next `\r` or `\n`. Without one, it is dropped to the end. |
| Sanitizer.UnterminatedBlockDropsRest | main_app.py:45-50 | A `/*` with no closing `*/` drops everything to the end of the text. |
| Sanitizer.EitherQuoteCloses | main_app.py:33 | A string opened with `'` is closed by `"`, so a following `//` is taken as a comment. |
| Sanitizer.SanitizeJsonTextProperties | main_app.py:54-60 | The only typographic quote the sanitised text can keep is U+2019. It is a subsequence of the fence-free, quote-mapped text, so comment and comma removal only delete characters. |
| Substitutions.RemoveFences | main_app.py:55 | Fence removal (```` ```json ```` with its whitespace, case-insensitive; then every ```` ``` ````; then strip) leaves no ```` ``` ```` and no whitespace at either end. |
| Substitutions.NoFenceAfterReplace | main_app.py:55 | After `.replace("```", "")` no three backticks are left in a row. |
| Substitutions.DropTrailingCommasSubseq | main_app.py:59 | Trailing-comma removal only deletes characters. |
| Substitutions.DropTrailingCommasKeepsSolid | main_app.py:59 | It deletes only commas and whitespace: the text without those is unchanged. |
| Substitutions.TrailingCommaRemoved | main_app.py:59 | Wherever it stands, a comma followed by whitespace and then `}` or `]` is removed together with that whitespace. The text before it and the text after the closer are cleaned on their own. |
| Substitutions.DropTrailingCommasNoFence | main_app.py:59 | Comma removal creates no new fence. |
| Substitutions.DropTrailingCommasNotIdempotent | main_app.py:59 | One pass turns `,,]` into `,]`. A second pass is needed to reach `]`. |
| Substitutions.DropCommaNewlinesSubseq | main_app.py:168 | `re.sub(r",\s*\n", "\n", text)` only deletes characters. |
| Substitutions.DropCommaNewlinesKeepsSolid | main_app.py:168 | It deletes only commas and whitespace. |
| Substitutions.CommaAtLineEndDropped | main_app.py:168 | Wherever it stands, a comma followed by a whitespace run holding a newline loses the comma and the whitespace before the run's last newline. That newline and the blanks after it stay, and the text before and after is cleaned on its own. |
| Substitutions.CommaInsideLineKept | main_app.py:168 | For any text before it, a comma followed by blanks with no newline, then a non-space, is kept with those blanks. The rest is cleaned on its own. |
| Lexer.Tokenize | main_app.py:62-95 | The index-advancing loop yields exactly `Lex(s)`, the recursive token list. |
| Lexer.NextToken | main_app.py:66-95 | Every token is a non-empty piece of the input at the scan position, and it is `WS` exactly when it starts with whitespace. |
| Lexer.LexRoundTrip | main_app.py:62-95 | The lexer is total. Every lexeme is non-empty, the lexemes concatenated in order give back the input, and no two `WS` tokens are adjacent. |
| Lexer.UnterminatedString | main_app.py:74-87 | A string whose every later matching quote is escaped gives one `STRING` token running to the end of the input. A quote counts as escaped when an odd run of backslashes directly precedes it. |
| Lexer.EscapedQuoteDoesNotClose | main_app.py:79-83 | A backslash-escaped quote does not close the string. |
| CommaRepair.AutoInsertCommas | main_app.py:97-143 | The token loop with its context stack computes the rendering of `Repair(Lex(raw))`. |
| CommaRepair.RepairOnlyInsertsCommas | main_app.py:97-143 | Deleting the inserted commas gives back the input exactly. |
| CommaRepair.RepairIsWoven | main_app.py:102-142 | The repair keeps every token and puts a comma before token `j` exactly when the comma rule holds there. The rule: apart from whitespace, `j` follows a scalar inside a container. The innermost container at that scalar is an object and a `STRING` then `:` starts at `j`, or it is an array and `j`'s kind passes the lookahead. |
| CommaRepair.InsertedBeforeAdmitted | main_app.py:115-141 | Every inserted comma is directly followed by a kept token of a kind the array lookahead admits. The key `STRING` the object rule looks for is one of those kinds. |
| CommaRepair.NoOpenerNoInsertion | main_app.py:115 | With an empty context stack nothing is inserted: text with no `{` or `[` comes back unchanged. |
| CommaRepair.RepairTurn | main_app.py:102-142 | Every turn consumes at least one token and first emits that token. |
| CommaRepair.ClosingBracketGetsComma | main_app.py:132-139 | As written, the one-element array `[1]` becomes `[1,]`. |
| CommaRepair.ClosingBracketKeptIntended | main_app.py:132-139 | With `]` not counted as a following value, `[1]` stays `[1]`. |
| Recovery.BracketSpans | main_app.py:154-161 | The per-family stack loop records exactly `Spans(text, opener, closer)`. |
| Recovery.SpansMatched | main_app.py:154-161 | Every recorded candidate is a contiguous piece of the text that starts with the opener and ends with its matched closer. The opener stays open until that last character. |
| Recovery.CloserInStringCloses | main_app.py:156-161 | The extractor is not aware of strings: in `{"}"}` the candidate is `{"}`. |
| Recovery.MatchedSpanRecorded | main_app.py:154-161 | Every piece of the text that starts with the opener and ends with the closer that matches it is recorded as a candidate. |
| Recovery.SpansInClosingOrder | main_app.py:154-161 | Of two matched pieces, the one that closes first is recorded first. |
| Recovery.NestedSpansRecorded | main_app.py:156-161 | For example, `{{}}` gives `{}` and then `{{}}`. |
| Recovery.SortByLenDescCorrect | main_app.py:162 | The candidate order is a permutation, sorted longest first. Equal lengths keep their discovery order (a stable sort). |
| Recovery.FirstOk | main_app.py:145-175 | The chain succeeds exactly when some attempt parses. It returns the first successful parse, with every earlier attempt failed; otherwise it returns the error of the last attempt. |
| Recovery.ParseLoose | main_app.py:145-175 | The staged `try` blocks compute `FirstOk` over the attempts in order: sanitised text, spans longest first, comma-newline cleanup, comma repair. This holds with the comma rule as written and as corrected. |
| Recovery.ParseLooseOrder | main_app.py:145-175 | If the sanitised text parses, that result is returned and no later strategy counts. If all fail, the error raised is the one from the comma-repaired text. Both hold for either comma rule. |
| Cleanup.ReplacementsCharwise | streamlit_app.py:141-147 | The replacement table maps typographic quotes to `"`/`'` and en and em dashes to `-`, character by character, keeping the length. |
| Cleanup.BereinigeJsonProperties | streamlit_app.py:134-152 | The result has no fence, no typographic quote, no en or em dash, and no whitespace at either end. It is a contiguous piece of the cleaned text. |
| Envelope.WaehleRoot | main_app.py:177-185 | A non-dict, or a dict already holding `speiseplan`, `rezepte` or `tag`, is returned unchanged. Otherwise the result is the first of `data`/`result`/`output` whose value is such a dict, or the input when none is. |
| Envelope.WaehleRootIdempotent | main_app.py:177-185 | Choosing the root twice gives the same as once. |
| Envelope.FirstToolInput | main_app.py:189-192 | A result is the non-null `input` of the first `tool_use` item, with no earlier item a `tool_use`. Without any `tool_use` item the result is None. |
| Envelope.ExtractToolInput | main_app.py:187-195 | A missing or non-list `content`, or a non-dict answer, gives None. Otherwise the first tool item decides. |
| Envelope.FirstToolUseDecides | main_app.py:190-192 | The first `tool_use` block decides. Later blocks are never consulted. |
| Envelope.UnwrapBlocks | streamlit_app.py:87-103 | The loop falls through exactly when every block is a dict that is not a `return_json` tool block with a dict `input`. Otherwise the first block that is not passed over decides. It yields the payload (`input['input']`, else `input`) when it is a dict, and the raised exception when it is not. |
| Envelope.ReadReply | streamlit_app.py:87-120 | A decided tool block wins. Otherwise an empty content list, or a first block with an empty or missing `text`, gives no answer. A non-string `text` raises. A string `text` is cleaned by `bereinigeJSON` and parsed: its value is the payload, and a parse error is reported. |
| Envelope.UnwrapNested | streamlit_app.py:88-94 | A return_json block whose input wraps `input` hands over the inner value, even after an unrelated block. |
| Envelope.CheckRezepte | streamlit_app.py:226-243 | The answer is accepted exactly when it is a dict with `rezepte`, and then unchanged. A list is always rejected, because the list-wrapping branch is unreachable. |
| Keys.ErwarteRezeptKeys | main_app.py:204-213 | The nested loops compute `ExpectedKeys(p)`. |
| Keys.ExpectedKeysMembers | main_app.py:204-213 | A key is expected exactly when some week `i`, day `j` and menu `l` of the plan produce it, with `woche` defaulting to 1 and the strings to `''`. |
| Keys.VorhandeneRezepteKeys | main_app.py:215-225 | With no `rezepte` the list is empty. Otherwise there is one key per recipe, in order, with `woche` defaulting to 0. |
| Keys.NameToHg | main_app.py:227-231 | The cut name has no whitespace at either end. |
| Keys.NameToHgInfix | main_app.py:227-231 | The cut name is a contiguous piece of the recipe name. |
| Keys.NameToHgWithoutSeparator | main_app.py:227-231 | A name with no ` mit `, ` - ` or ` – ` separator is only stripped. |
| Keys.NameToHgNoSplit | main_app.py:230-231 | The cut name holds no separator any more. |
| Keys.NameToHgIdempotent | main_app.py:227-231 | Cutting twice gives the same as cutting once. |
| Keys.FirstSplit | main_app.py:230 | The split is at the first separator (`\s+mit\s+`, ` - `, ` – `). |
| Keys.DeltaMissing | main_app.py:233-241 | The index-building loop and the filtering loop compute `MissingFrom(expected, HaveIndex(rezepte))`. |
| Keys.MissingFromSpec | main_app.py:237-241 | The missing keys are a subsequence of the expected ones, in expected order. Each key keeps all its duplicates when uncovered and none when covered. |
| Keys.DeltaMissingMembers | main_app.py:233-241 | A key is missing exactly when it is expected and no recipe's normalised key equals it. |
| Keys.NoRezepteAllMissing | main_app.py:217-241 | With no `rezepte`, everything expected is missing. |
| Keys.SplitDishNeverCovered | main_app.py:233-241 | As written, an expected main dish containing a separator is reported missing whatever recipes exist. |
| Keys.NamedRecipeMissedAsWritten | main_app.py:233-241 | As written, "Nudeln mit Tomatensosse" stays missing next to a recipe of exactly that name. |
| Keys.NamedRecipeCovers | main_app.py:233-241 | With both sides normalised, a recipe whose key equals an expected key covers it. |
| MiniPlan.BuildIndex | main_app.py:244-248 | The `defaultdict` filling gives, for each week and day in the keys, the sets of needed main dishes and menu names. |
| MiniPlan.MiniPlanFromKeys | main_app.py:243-272 | The nested filtering loops compute `MiniPlanOf(p, keys)`, with `menuLinien` copied and `menuNamen` defaulting to `[]`. |
| MiniPlan.KeepWeeks | main_app.py:249-267 | Kept weeks carry a number and are non-empty, and kept days carry menus. |
| MiniPlan.KeepMenuesSpec | main_app.py:257-263 | The kept menus are a subsequence of the day's menus, in order. They keep each wanted menu with all its copies and no unwanted one. |
| MiniPlan.KeepDaysMembers | main_app.py:253-265 | A menu stays on a day exactly when it was there and is wanted by that day's keys. |
| MiniPlan.MiniPlanMembers | main_app.py:243-272 | A menu is in the follow-up plan exactly when it is in the plan and some key of its week and day names it. Some key of that week and day must also name its main dish. |
| Validate.ValidateDayStruct | main_app.py:276-300 | The error-list loop computes `DayProblems(day, menulinien)`. |
| Validate.CheckMenus | main_app.py:287-299 | The loop over the menus computes `MenusProblems`. It stops at a lunch that is not a dict, where Python raises. |
| Validate.DayProblemsEmpty | main_app.py:276-300 | A day yields no error exactly when it is a dict with a valid `tag` and a `menues` list of length `menulinien`. Each menu must be a dict with the four keys, and a lunch with `hauptgericht`, `beilagen` and, when that is a list, at least two sides. |
| Validate.DayFaultIff | main_app.py:293-298 | The validator raises exactly when some menu dict has a `mittagessen` that is not a dict. |
| Validate.MenusFaultStays | main_app.py:287-299 | Once a menu raises, later menus change nothing. |
| Validate.ValidateWeekStruct | main_app.py:302-309 | The week loop computes `WeekProblems(week, menulinien)`. |
| Validate.WeekProblemsEmpty | main_app.py:302-309 | A week passes exactly when `tage` is a list of seven days that all pass. |
| Validate.ForceMenuCount | main_app.py:484-492 | A longer list is cut to `menulinien`. A shorter non-empty one is padded with copies of its last entry. An empty one stays empty. |
| Validate.ForcedCountAccepted | main_app.py:484-497 | A day whose menu list holds exactly `menulinien` menus, which is how the forcing leaves every non-empty list, is never reported with a wrong menu count. |
| Validate.DirectOnlyForOneByOne | main_app.py:618-623 | For positive inputs, the direct mode runs only for one week with one menu line (the split threshold is 8, main_app.py:322). |
| Staged.GroupsPartition | main_app.py:540-547 | The `ceil(n/2)` groups `[2g, min(2g+2, n))` are non-empty, hold at most two days and follow each other. They cover `0..n` from start to end, and every day lies in exactly one group. |
| Staged.GroupsCoverWeek | main_app.py:546-555 | The groups' expected keys, concatenated, are the week's expected keys. |
| Staged.CoverGroup | main_app.py:555-580 | The generation and follow-up loop computes `CoverGroupOf`, and `missing` is what is still uncovered. This holds with the delta as written and as corrected. |
| Staged.FollowUpsSpec | main_app.py:565-578 | At most 2 follow-ups run. The accumulator is only extended. The loop stops with nothing missing or after the second try, and does not run when nothing is missing. |
| Staged.CoverGroupSpec | main_app.py:555-580 | Per group the tries are at most 2 and the accumulator is only extended. When recipes are still missing the tries reached 2, and with none missing after the first generation there is no follow-up. This holds for either delta. |
| Staged.SplitDishForcesFollowUps | main_app.py:565-577 | With the delta as written, a group that expects a main dish holding a separator always runs both follow-ups, whatever the generator returns. |
| Staged.CoverWeek | main_app.py:540-580 | The loop over the groups computes `GroupsFrom` over the week's `GroupPlans` (group `g` holds days `2g` to `min(2g+2, n)`), in group order, starting from an empty accumulator. |
| Staged.GroupsFromExtends | main_app.py:545-578 | The week's recipe list is only ever extended. |
| Dishes.CollectDishes | streamlit_app.py:186-199 | The nested loops compute `WeeksDishes(p.wochen)`. A missing `tage` or `menues`, or a lunch without `hauptgericht` in a menu, week or day missing its name, is a KeyError, modelled as the error result. |
| Dishes.CollectedDishes | streamlit_app.py:186-199 | A dish is collected exactly when some week, day and menu with `mittagessen` yields it. |
| Dishes.YieldsFields | streamlit_app.py:191-199 | A collected dish carries the lunch main dish, the sides (default `[]`) and its week, day and menu name. |
| Dishes.Dedup | streamlit_app.py:201-208 | The dictionary loop computes `FirstOccurrences(ds)`. |
| Dishes.FirstOccurrencesSubseq | streamlit_app.py:201-208 | The kept dishes are a subsequence of the input: input order is preserved. |
| Dishes.FirstOccurrencesKeys | streamlit_app.py:201-208 | Every key of the input is kept. |
| Dishes.FirstOccurrencesDistinct | streamlit_app.py:201-208 | No two kept dishes share a key. |
| Dishes.FirstOccurrencesFirst | streamlit_app.py:205-206 | Every kept dish is the first dish of the input with its key. |
| Dishes.SortStringsSpec | streamlit_app.py:204 | `sorted(beilagen)` is a sorted permutation. |
| Dishes.SortedKeyIgnoresOrder | streamlit_app.py:204 | Side lists that are permutations of each other sort to the same tuple. |
| Dishes.PermutedSidesAreDuplicates | streamlit_app.py:201-208 | A dish with the same main dish and the sides in another order is dropped as a duplicate. |

## Left out

- HTTP, the Anthropic client, timeouts and status handling (`rufe_claude_api`, `_anthropic_call`) are not part of this model. The retry loop's generator and the JSON parser are function parameters.
- `json.loads` is an abstract parameter. The orchestration properties hold whatever it does.
- The Python `re` engine is not modelled. The four substitutions used (fence removal, trailing commas, comma before newline, the `_name_to_hg` split) are written out as string functions.
- Records: the plan and recipe records are typed. A field holding a value of the wrong JSON type is outside the model, and a present `null` reads as absent.
- JSON objects with duplicate keys: `Get` returns the first member with that key, which need not be the member Python keeps.
- `int(...)` and `str(...)` conversions in the key builders are not modelled: `woche` is an integer and the other fields are strings.
- Validate.ValidateWeekStruct: requires a dict, because `"tage" in week` on a non-dict is not meaningful in the staged flow. The direct mode's validation of arbitrary `wochen` entries is not modelled.
- Validate.ForceMenuCount: takes the list and a natural `menulinien`; a non-list `menues` is not modelled.
- The validators' messages are a `Problem` datatype rather than German strings. Lunch dicts that raise are a `Fault`.
- Envelope.ReadReply: assumes `data['content']` is a list of JSON values; a `content` that is not a list is not modelled.
- JSON numbers are integers (`Json.Num(n: int)`). Floats, exponents and the large-number handling of `json.loads` are not modelled; the parser is a parameter anyway.
- The per-day generation loop `_generiere_woche_tageweise`, prompts, cost tracking, database writes, `st.*` messages and the quality check are not part of this model.
- The spin and progress UI, session state and PDF output are not part of this model.

## Findings

| source | as written | input that shows it | evidently intended | confidence | as-written member | corrected member |
|---|---|---|---|---|---|---|
| main_app.py:18-21 | The dict opens with `"""`, a triple-quoted key `: '"', `, so the curly double quotes are no keys and `'` maps to itself | `“` (U+201C) survives sanitising | U+201C, U+201D, U+201E map to `"`. The lost single-quote glyph of line 20 is taken as U+2018, which with U+201A forms the German pair ‚…‘. So U+2018 and U+201A map to `'`, and U+2019 has no key | low: the typographic glyphs may have been lost in an encoding conversion; not executed | Sanitizer.CurlyQuoteSurvivesAsWritten | Sanitizer.NormalizeQuotesCharwise |
| streamlit_app.py:141-145 | The same triple-quoted first key in the `replacements` table | `”` (U+201D) survives `bereinigeJSON` | Curly quotes map to ASCII quotes, dashes to `-` | low: as above; not executed | Cleanup.CurlyQuoteSurvivesCleanupAsWritten | Cleanup.ReplacementsCharwise |
| main_app.py:132-139 | `]` is in `VALUE_TYPES` (line 100), so in an array a following `]` counts as a next value | `[1]` becomes `[1,]`, which is not valid JSON | No comma before a closing bracket | medium; not executed | CommaRepair.ClosingBracketGetsComma | CommaRepair.ClosingBracketKeptIntended |
| main_app.py:233-241 | Recipe names are normalised by `_name_to_hg`, expected main dishes are not | Expected `Nudeln mit Tomatensosse` with a recipe of exactly that name is still missing | Both sides normalised alike | high; not executed | Keys.NamedRecipeMissedAsWritten | Keys.NamedRecipeCovers |
