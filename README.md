# rp-bot message core, in Dafny

rp-bot is the WhatsApp assistant of a gift shop. Every inbound message goes
through a chain of stages in `server.js`. The first stage that applies answers
the message; the later stages do not run. The stages are:

1. the business-hours notice;
2. a pending custom-card text;
3. a pending operator-defined form;
4. the menu words;
5. the favourites selection "1";
6. an inventory lookup against a published sheet;
7. purchase-intent phrases;
8. operator-authored rules from a second sheet;
9. the help message.

This project models that core and proves properties of the model.

- `Text` covers the JavaScript string operations the bot uses:
  - `toLowerCase`/`toUpperCase` on ASCII and Latin-1;
  - `trim`, `split` on one character, `join`;
  - `startsWith`, `includes` and `slice`.
- `Csv` covers how both sheets are read:
  - lines split on `\r?\n`, with empty lines dropped;
  - a header row giving a column map in which the last column wins;
  - naive comma splitting, and cells that read as `""` when missing.
- `Catalog` is the time-to-live snapshot cache in front of each sheet. The clock,
  the TTL and the fetched text are inputs.
- `Inventory` covers:
  - the inventory rows, and `Number()` on their stock and price cells;
  - `inStock`;
  - the item matcher as written, which the stage chain uses, and a corrected
    matcher beside it (see Findings).
- `Rules` covers the rule rows, the exact (`=x`) and substring triggers, the
  first-actionable-rule search and the field list of a FORM rule.
- `Forms` covers the form record:
  - answers kept as an insertion-ordered key/value list, as a JavaScript object
    keeps them;
  - one answer at a time, a run of answers, and the summary text.
- `Sessions` is the per-sender session map and its setters.
- `Events` lists the texts sent to the customer (by kind) and the operator
  alerts.
- `Dispatcher` is the stage chain as pure functions of the state (sessions and
  both snapshots), the message and the environment: the hour, the clock and
  what each sheet would serve. Each stage is one function: `Dispatch`,
  `FromCard`, `FromForm`, `FromMenu`, `FromFavorites`, `FromInventory`,
  `FromCloseIntent` and `FromRules`. They are specified by the lemmas listed
  below.
- `Bot.Bot` is the running process as an object.
  - Its fields are the session map, the two cache snapshots and an `outbox`
    that records every send and alert in order.
  - Each method mirrors a function or a stage of `server.js`:
    - the session helpers, `loadInventoryCSV`, `loadFunctionsCSV`,
      `handleFormIfAny`, `tryHandleDynamicFeature` (with its `for` loop as a
      `while` loop) and the webhook handler;
    - the stages of the webhook handler (`CaptureCard`, `FindInInventory`,
      `ReplyItem` and the `Handle…Onward` methods).
  - Each method is proved to leave the object exactly as the matching
    `Sessions`, `Catalog` or `Dispatcher` function says.
  - The handler methods (`HandleMessage`, the `Handle…Onward` stages,
    `HandleFormIfAny`, `TryHandleDynamicFeature`, `ScanRules` and `ApplyRule`)
    are also proved to keep every stored form pending. The session setters
    are not: `SetForm` stores whatever form it is given.
- `Scenarios` follows two conversations through the chain:
  - "hola", "1", then a card text;
  - a question about an item that the sample sheet lists with no stock.

Two behaviours of `server.js` are easy to misread, and the model follows the code in both.

- A stock or price cell that is not a number reads as `NaN` (server.js:90-91),
  not as `0`: `Number(cell || 0)` only defaults an empty cell. `NaN` is never in
  stock and never quoted, and the model behaves that way.
- When the rules sheet has to be fetched and the fetch fails, the error in
  `tryHandleDynamicFeature` is not caught (server.js:139, 296). The handler then
  rejects and sends no reply at all; the fallback message is never sent. The
  model makes this a stage of its own, `RuleFeedError`.

## Model

| member | source | states |
|---|---|---|
| Text.LowerChar | server.js:98 | a lower-cased character is never an upper-case letter, and only upper-case letters change |
| Text.UpperChar | server.js:128 | an upper-cased character is never a lower-case letter; a lower-case letter becomes an upper-case one; every other character except ÿ and µ is unchanged |
| Text.CaseRoundTrip | server.js:98 | lower-casing the upper case of a lower-case letter gives it back, and the other way round |
| Text.LowerIdempotent | server.js:98-101 | lower-casing twice is lower-casing once |
| Text.ContainsEmpty | server.js:100-101 | every text includes the empty string |
| Text.EmptyContainsOnlyEmpty | server.js:290 | the empty text includes a string exactly when that string is empty |
| Text.ContainsPrefix | server.js:147 | a text includes anything it starts with |
| Text.TrimStart | server.js:215 | the result is a suffix of the input; everything dropped is white space, and the result does not start with white space |
| Text.TrimEnd | server.js:215 | the result is a prefix of the input; everything dropped is white space, and the result does not end with white space |
| Text.Trim | server.js:86 | the result is a contiguous middle of the input with only white space before and after it; it starts and ends with no white space, and is the input itself when the input has no white space at either end |
| Text.TrimAvoids | server.js:164 | a character absent from a text is absent from its trim |
| Text.Take | server.js:227-228 | the result has length min(n, length) and is a prefix of the input |
| Text.Split | server.js:85 | there is always at least one piece, and no piece holds the separator |
| Text.JoinSplit | server.js:85 | joining the pieces of a split with the separator gives the text back |
| Text.SplitJoin | server.js:187 | splitting a join of separator-free pieces gives the pieces back |
| Text.SplitFree | server.js:85 | a text without the separator splits into itself |
| Text.JoinAvoids | server.js:187 | a character that is neither the separator nor in any piece is not in the join |
| Text.LowerKeeps | server.js:216 | a text without upper-case letters lower-cases to itself |
| Csv.StripCR | server.js:79 | the result is the piece, or the piece without its last character when that is a carriage return, and it changes exactly then |
| Csv.SplitLines | server.js:79 | there is at least one line, and no line holds a line feed |
| Csv.SplitLinesLF | server.js:79 | lines joined with line feeds split back into those lines, unless a line before the last ends in a carriage return |
| Csv.SplitLinesCRLF | server.js:79 | lines joined with carriage return and line feed split back into those lines |
| Csv.SplitLinesPieces | server.js:79 | one line per piece between line feeds; each line before the last is its piece with exactly the carriage return before the line feed removed, when there is one; the last line is the last piece; the pieces join back into the text |
| Csv.NonEmpty | server.js:79 | every kept line is non-empty and comes from the input, and every non-empty input line is kept |
| Csv.NonEmptyAppend | server.js:79 | filtering two blocks of lines gives the kept lines of the first, then those of the second, so the order is kept |
| Csv.NonEmptyOne | server.js:79 | one line is kept exactly when it is non-empty |
| Csv.LastPositions | server.js:82-83 | the map's keys are exactly the header keys; each maps to a column carrying it, and no later column carries it, so the last column wins |
| Csv.HeaderKeys | server.js:83 | one key per header cell, each the trimmed, lower-cased cell |
| Csv.LastPositionsDistinct | server.js:82-83 | with no repeated header name, each name maps to its own column |
| Csv.Lines | server.js:79 | no contract of its own: `csv.split(/\r?\n/).filter(Boolean)`, the composition of `Csv.SplitLines` and `Csv.NonEmpty`; specified by their lemmas and used by `Csv.ParseTable` |
| Csv.ParseTable | server.js:79-83 | there is no table exactly when the text has no non-empty line; the column map is that of the first non-empty line split on commas, and the rows are the lines after it |
| Csv.HeaderIndex | server.js:82-83 | no contract of its own: the map built from the header cells' keys, specified by `Csv.LastPositions`, `Csv.HeaderKeys` and `Csv.LastPositionsDistinct` |
| Csv.Cell | server.js:86 | an unknown column, or one past the end of the row, reads as ""; otherwise the cell reads trimmed |
| Csv.DecodeRows | server.js:84-93 | at most one row per line, and every row kept passes the filter |
| Csv.DecodeRowsAppend | server.js:84-93 | decoding two blocks of lines gives the rows of the first block followed by those of the second |
| Csv.DecodeRowsOne | server.js:84-93 | a single line gives its decoded row if it passes the filter, and nothing otherwise |
| Csv.DecodeRowsAt | server.js:84-93 | the row of line k is kept exactly when it passes the filter, between the rows of the lines before and after it |
| Csv.LinesOfTwo | server.js:79 | a header line and a data line joined by a line feed split back into those two lines |
| Csv.ParseTwoLines | server.js:79-83 | such a sheet parses to the header's column map and the one data row |
| Catalog.Load | server.js:69-96 | no contract of its own: one load through the cache, for either sheet; specified by the `Catalog` lemmas below |
| Catalog.Unconfigured | server.js:70-71 | without a URL the loader returns no rows and neither fetches nor touches the snapshot |
| Catalog.HitIffFresh | server.js:74-76 | the loader skips the fetch exactly when the snapshot is fresh, and then returns the stored rows and keeps the snapshot |
| Catalog.RefreshReplaces | server.js:77-95 | a stale snapshot and a parsable sheet: the snapshot becomes `{at: now, rows}` and those rows are returned |
| Catalog.BlankSheetKeepsSnapshot | server.js:79-80 | a fetched text with no non-empty line returns no rows and keeps the old snapshot |
| Catalog.FailedFetchKeepsSnapshot | server.js:77-78 | a failed fetch propagates as an error and keeps the old snapshot |
| Catalog.NoSecondFetchWithinTtl | server.js:72-76 | after a fetch that returned rows, a load less than the TTL later serves the same rows without fetching |
| Catalog.StaleFetches | server.js:72-77 | once the TTL has elapsed, or when the TTL is not positive, a load fetches |
| Sessions.Lookup | server.js:61-65 | a sender with no record reads as an empty record, and a sender with one reads as that record |
| Sessions.AwaitingCard | server.js:62 | no contract of its own: `isAwaitingCard`, the record's flag; an unknown sender reads false (`Sessions.Lookup`), and the get/set laws are in the contracts of `Sessions.WithAwaitingCard`, `Sessions.WithForm` and `Sessions.WithoutForm` |
| Sessions.FormOf | server.js:64 | no contract of its own: `getForm`, the record's form; an unknown sender has none (`Sessions.Lookup`), and the get/set laws are in the contracts of `Sessions.WithForm`, `Sessions.WithoutForm` and `Sessions.WithAwaitingCard` |
| Sessions.WithAwaitingCard | server.js:61 | the sender's record exists with the new flag and the same form; other records are untouched |
| Sessions.WithForm | server.js:63 | the sender's record exists with the new form and the same flag; other records are untouched |
| Sessions.WithoutForm | server.js:65 | the sender's record exists with no form and the same flag; other records are untouched |
| Sessions.SettersKeepValid | server.js:61-65 | the setters keep every stored form pending, given that a new form is pending |
| Inventory.ParseNumber | server.js:90-91 | an empty cell is 0; a cell starting with anything but a digit or sign is not an integer; an unsigned integer is not negative |
| Inventory.ParseDigits | server.js:90-91 | a number written in decimal, with or without a minus sign, parses back to itself |
| Inventory.DecodeItem | server.js:86-92 | code and name are the trimmed cells, and stock and price are those cells parsed as numbers |
| Inventory.Decode | server.js:84-93 | at most one item per data line, and every item has a code or a name |
| Inventory.InStock | server.js:104 | no contract of its own: a stock that reads as a positive integer; used by `Dispatcher.ItemReply` |
| Inventory.FindItemByTextAsWritten | server.js:97-103 | no contract of its own: `findItemByText` as written, the lookup the stage chain makes; specified by `Inventory.FindItemByTextAsWrittenFound` (the first row that passes the test as written), `Inventory.BlankKeyFirstRowFound` and `Inventory.AsWrittenAgreesWhenKeyed` |
| Inventory.FindItemByTextAsWrittenFound | server.js:97-103 | the row found is the first row of the sheet that passes the test as written, and nothing is found exactly when no row passes it |
| Inventory.BlankKeyFirstRowFound | server.js:93-103 | as written, a sheet whose first row has an empty code or name answers every text with that row |
| Inventory.BlankKeyAlwaysFinds | server.js:93-103 | as written, a sheet holding any row with an empty code or name finds a row for every text |
| Inventory.FindItemByText | server.js:97-103 | no contract of its own: the corrected lookup; specified by `Inventory.FindItemByTextMentioned` and `Inventory.FindItemByTextFirst` |
| Inventory.AsWrittenMatches | server.js:99-102 | the test as written passes exactly when the code or name is empty, or the text mentions a non-empty code or name |
| Inventory.FirstWhere | server.js:99 | `find`: the position found passes the test and no earlier row does; nothing is found only when no row passes |
| Inventory.FindItemByTextMentioned | server.js:97-103 | a found item is a row whose non-empty code or name the lower-cased text includes; nothing is found exactly when no row is mentioned |
| Inventory.FindItemByTextFirst | server.js:99-102 | when row k is mentioned, an item is found, and it is row k or an earlier one |
| Inventory.AsWrittenAgreesWhenKeyed | server.js:97-103 | when every row has both a code and a name, the lookup as written and the corrected lookup agree |
| Inventory.BlankCodeAnswersAnything | server.js:93-103 | a row with no code answers "gracias" as written, while the corrected lookup finds nothing |
| Inventory.FindIgnoresCase | server.js:98-101 | the lookup gives the same result for a text and its lower-cased form |
| Rules.DecodeRule | server.js:125-132 | a rule is enabled exactly when its lower-cased `enabled` cell starts with "y"; the type is upper-cased; trigger and payloads are the trimmed cells |
| Rules.EnabledFlag | server.js:127 | a rule is enabled exactly when its `enabled` cell starts with `y` or `Y` |
| Rules.Decode | server.js:123-133 | at most one rule per data line, and every rule has a type and a trigger |
| Rules.TriggerMatches | server.js:144-148 | no contract of its own: the trigger test; specified by `Rules.ExactTrigger`, `Rules.ExactVersusSubstring` and `Rules.PlainTriggerSubstring` |
| Rules.ExactTrigger | server.js:144-145 | a trigger `=x` fires exactly when the whole text equals x, ignoring case |
| Rules.ExactVersusSubstring | server.js:144-148 | `=foo` does not fire on "xfoox", while `foo` does |
| Rules.PlainTriggerSubstring | server.js:146-147 | a trigger without `=` fires on every text that contains it, ignoring case |
| Rules.FirstActionable | server.js:141-171 | the rule found is enabled, matches and has a known type, and no earlier rule is all three; nothing is found only when no rule is |
| Rules.FirstActionableAppend | server.js:141-171 | rules after the first actionable one are never consulted |
| Rules.FormFields | server.js:164 | every field is trimmed, non-empty and free of the bar character |
| Rules.FormFieldsJoin | server.js:164 | round trip: fields that are trimmed, non-empty and bar-free, written as `a|b|c`, read back as themselves |
| Rules.TrimmedNonEmpty | server.js:164 | the result is no longer than the input |
| Rules.TrimmedNonEmptyTrimmed | server.js:164 | every field kept is trimmed and non-empty |
| Rules.TrimmedNonEmptyAvoids | server.js:164 | a character absent from every piece is absent from every field kept |
| Rules.TrimmedNonEmptyAppend | server.js:164 | two blocks of pieces give the fields of the first, then those of the second, so the order is kept |
| Rules.TrimmedNonEmptyOne | server.js:164 | one piece gives its trimmed text, or nothing when that is empty |
| Rules.FieldsKept | server.js:164 | fields already trimmed and non-empty survive trimming and filtering unchanged |
| Forms.Put | server.js:179 | no contract of its own: `d[k] = v` on the ordered pairs; specified by `Forms.PutKeys`, `Forms.PutGet`, `Forms.PutGetOther` and `Forms.PutDistinct` |
| Forms.Keys | server.js:187 | one key per stored pair; `Forms.KeysAt` gives the rest |
| Forms.KeysAt | server.js:187 | the key at each position is the key of the pair at that position, so `Object.entries` order is the pairs' order |
| Forms.Get | server.js:179 | a value is found exactly when the key is stored |
| Forms.PutKeys | server.js:179 | setting a key keeps the existing keys in place and adds a new key at the end |
| Forms.PutGet | server.js:179 | after setting a key, reading it gives the new value |
| Forms.PutGetOther | server.js:179 | setting a key leaves every other key's value as it was |
| Forms.PutDistinct | server.js:179 | setting a key never stores it twice |
| Forms.Start | server.js:166 | a new form is pending, starts at the first field with no answers, and uses the default thanks when the second payload is empty |
| Forms.Answer | server.js:178-180 | the answer is stored under the current field, the position moves on by one, and the rest of the form is kept |
| Forms.Summary | server.js:187 | no contract of its own: the `k: v` lines of the answers in key order, joined with line feeds; specified by `Forms.SummarySplits` and, for the order, `Forms.CompletedForm` |
| Forms.SummarySplits | server.js:187 | when no name or answer holds a line break, the summary splits back into one `k: v` line per answer |
| Forms.AnswerAll | server.js:178-183 | a run of answers moves the position by its length and keeps fields, title and thanks |
| Forms.Latest | server.js:179-180 | a run of answers has an answer for a key exactly when one of the fields it answers is that key |
| Forms.AnswerAllLast | server.js:179-180 | the last answer of a run is stored on top of the answers before it |
| Forms.AnswerAllData | server.js:178-183 | after a run, each field answered in it holds its latest answer, and every other key keeps its value |
| Forms.AnswerAllDistinct | server.js:179 | a run of answers keeps one entry per field name |
| Forms.AddKeysMembers | server.js:179 | setting keys keeps the old keys in front and adds exactly the new ones |
| Forms.AddKeysFresh | server.js:179 | keys that are all new and pairwise different are added in the order given |
| Forms.FirstOccurrencesOf | server.js:187 | the key order of a completed form holds exactly the field names, and is the field list itself when no name repeats |
| Forms.AnswerAllKeys | server.js:179-180 | a run of answers sets the keys of the fields it answers, in turn, on the answers before it |
| Forms.CompletedForm | server.js:166-189 | a form answered to the end: every field answered, one entry per distinct field, keys in the order the fields first occur, exactly the fields stored, each with its latest answer |
| Dispatcher.MessageText | server.js:215 | no contract of its own: the trimmed text body of a text message, and "" for any other type; the trim is specified by `Text.Trim`, and the non-text case by `Dispatcher.NonTextFallsBack` |
| Dispatcher.IsBusinessHours | server.js:18-22 | no contract of its own: the half-open window; specified by `Dispatcher.EmptyWindowNeverOpen` and `Dispatcher.OutsideHoursOnlyNotice` |
| Dispatcher.HasCloseIntent | server.js:289-290 | no contract of its own: the phrase test; used by `Dispatcher.NonTextFallsBack` and `Dispatcher.InventoryErrorFallsThrough` |
| Dispatcher.RuleAction | server.js:151-170 | no contract of its own: what one actionable rule does; specified by `Dispatcher.RuleActionKeepsValid` and `Dispatcher.RuleStepActsOnFirst` |
| Dispatcher.ItemReply | server.js:266-282 | no contract of its own: the replies for a found item; used by `Dispatcher.FoundItemReplies` and `Bot.Bot.ReplyItem` |
| Dispatcher.InventoryLookup | server.js:263-265 | no contract of its own: the load and the matcher as written, a load error reading as no item; used by `Bot.Bot.FindInInventory` and `Dispatcher.FoundItemReplies` |
| Dispatcher.Dispatch | server.js:216-300 | no contract of its own: the whole chain; specified by the stage lemmas below and `Dispatcher.DispatchKeepsValid` |
| Dispatcher.FromCard | server.js:226-300 | no contract of its own; specified by `Dispatcher.CardCaptureTruncates` |
| Dispatcher.FromForm | server.js:236-300 | no contract of its own; specified by `Dispatcher.FormStageTakesText` and `Dispatcher.FormStepAdvances` |
| Dispatcher.FromMenu | server.js:240-300 | no contract of its own; specified by `Dispatcher.MenuWordShowsMenu` and `Dispatcher.FromMenuKeepsValid` |
| Dispatcher.FromFavorites | server.js:251-300 | no contract of its own; specified at chain level by `Dispatcher.OneShowsFavorites`; `Dispatcher.FavoritesOnOne` and `Dispatcher.FavoritesPassOn` are its two branches |
| Dispatcher.FromInventory | server.js:262-300 | no contract of its own; specified by `Dispatcher.FoundItemReplies`, `Dispatcher.BlankCodeRowAnswersEveryText` and `Dispatcher.InventoryErrorFallsThrough` |
| Dispatcher.FromCloseIntent | server.js:289-300 | no contract of its own; specified by `Dispatcher.NonTextFallsBack` and `Dispatcher.InventoryErrorFallsThrough` |
| Dispatcher.FromRules | server.js:296-300 | no contract of its own; specified by `Dispatcher.RulesLoadedFirstActs`, `Dispatcher.RulesLoadedNoMatchFallsBack`, `Dispatcher.RuleFeedFailureIsSilent` and `Dispatcher.FromRulesKeepsValid` |
| Dispatcher.EmptyWindowNeverOpen | server.js:18-22 | a window whose start is not before its end is never open |
| Dispatcher.FormStep | server.js:175-192 | the message is handled exactly when a form is stored; when none is, nothing changes and nothing is sent |
| Dispatcher.RuleStep | server.js:138-173 | when no rule is enabled, matching and of a known type, the step is not handled, the sessions are unchanged and nothing is sent; whenever the step is not handled, nothing changes and nothing is sent |
| Dispatcher.FavoritesOnOne | server.js:251-260 | "1" shows the favourites and sets the card flag |
| Dispatcher.FavoritesPassOn | server.js:251-262 | any other text goes on to the inventory stage |
| Dispatcher.OneIsNoMenuWord | server.js:240-251 | "1" is not a menu word, so the favourites stage is reachable |
| Dispatcher.OutsideHoursOnlyNotice | server.js:218-224 | outside business hours the notice is the only effect, whatever the message or session |
| Dispatcher.CardCaptureTruncates | server.js:226-234 | while a card is awaited: the card is the first min(500, length) characters of the text; the echo, the alert and the delivery request go out in order; the flag is cleared; form and caches are unchanged |
| Dispatcher.MenuWordShowsMenu | server.js:240-249 | with no card awaited and no form, a menu word shows the menu and changes nothing |
| Dispatcher.OneShowsFavorites | server.js:251-260 | with no card awaited and no form, "1" shows the favourites and arms the card capture |
| Dispatcher.FoundItemReplies | server.js:262-283 | a text that finds an item gets that item's replies |
| Dispatcher.BlankCodeRowAnswersEveryText | server.js:93-103 | with a fresh inventory snapshot whose first row has no code, every text that reaches the inventory stage, "lo compro" included, gets that row's replies and never reaches the close-intent stage |
| Dispatcher.NonTextFallsBack | server.js:215-300 | a non-text message gets the help message and changes nothing |
| Dispatcher.InventoryErrorFallsThrough | server.js:262-296 | a failed inventory fetch is swallowed: the message goes on to the close-intent and rule stages, with the snapshot kept |
| Dispatcher.RuleFeedFailureIsSilent | server.js:296-298 | a failed rules fetch ends the handler with no reply |
| Dispatcher.RulesLoadedNoMatchFallsBack | server.js:296-300 | when the rules load and no rule is actionable for the text, the help message is sent, the sessions are unchanged and only the rules cache moves |
| Dispatcher.RulesLoadedFirstActs | server.js:138-172 | when the rules load and the first actionable rule acts, the stage is `DynamicRule` with that rule's sessions and sends |
| Dispatcher.FormStageTakesText | server.js:236-238 | in business hours, a text from a sender with a stored form and no card awaited is answered by the form stage, whatever it says; the later stages do not run |
| Dispatcher.RuleStepActsOnFirst | server.js:141-171 | the step acts as the first actionable rule says |
| Dispatcher.SkippedRuleIgnored | server.js:142-149 | a disabled, non-matching or unknown-type rule is passed over |
| Dispatcher.EarlierRuleWins | server.js:141-171 | if two rules match, only the earlier one acts |
| Dispatcher.EmptyFormRuleEndsSearch | server.js:163-165 | an actionable FORM rule with no fields ends the search unhandled, without trying later rules |
| Dispatcher.FormStepAdvances | server.js:175-192 | a stored form takes the message as the current field's answer; it then asks for the next field, or sends the thanks and summary alert and clears the form; the card flag and other senders are untouched |
| Dispatcher.RuleActionKeepsValid | server.js:163-170 | a rule's action keeps every stored form pending |
| Dispatcher.FromRulesKeepsValid | server.js:296-300 | the rule stage keeps every stored form pending |
| Dispatcher.FromMenuKeepsValid | server.js:240-300 | the stages from the menu words on keep every stored form pending |
| Dispatcher.DispatchKeepsValid | server.js:205-300 | every stage keeps every stored form pending |
| Bot.Bot.constructor | server.js:60-68 | the process starts with no sessions and both caches `{at: 0, rows: []}` |
| Bot.Bot.SetAwaitingCard | server.js:61 | the session map becomes `Sessions.WithAwaitingCard` of the old one |
| Bot.Bot.SetForm | server.js:63 | the session map becomes `Sessions.WithForm` of the old one |
| Bot.Bot.ClearForm | server.js:65 | the session map becomes `Sessions.WithoutForm` of the old one |
| Bot.Bot.LoadInventoryCSV | server.js:69-96 | result, new snapshot and whether it fetched are `Catalog.Load` of the old snapshot |
| Bot.Bot.LoadFunctionsCSV | server.js:108-136 | result, new snapshot and whether it fetched are `Catalog.Load` of the old snapshot |
| Bot.Bot.HandleFormIfAny | server.js:175-192 | verdict, sessions and appended sends are `Dispatcher.FormStep`'s, and stored forms stay pending |
| Bot.Bot.TryHandleDynamicFeature | server.js:138-173 | the rules cache is refreshed as `Catalog.Load` says; a load error propagates and changes nothing else; otherwise the verdict, sessions and sends are `Dispatcher.RuleStep`'s |
| Bot.Bot.ScanRules | server.js:140-172 | the loop's verdict, sessions and sends are `Dispatcher.RuleStep`'s |
| Bot.Bot.ApplyRule | server.js:151-170 | verdict, sessions and sends are `Dispatcher.RuleAction`'s, and stored forms stay pending |
| Bot.Bot.HandleMessage | server.js:205-300 | stage, new state and appended sends are `Dispatcher.Dispatch` of the old state, and stored forms stay pending |
| Bot.Bot.HandleCardOnward | server.js:226-300 | stage, new state and sends are `Dispatcher.FromCard`'s |
| Bot.Bot.HandleFormOnward | server.js:236-300 | stage, new state and sends are `Dispatcher.FromForm`'s |
| Bot.Bot.CaptureCard | server.js:227-232 | the card is the text cut to 500 characters; the echo, alert and delivery request are appended and the flag is cleared |
| Bot.Bot.HandleMenuOnward | server.js:240-300 | stage, new state and sends are `Dispatcher.FromMenu`'s |
| Bot.Bot.HandleFavoritesOnward | server.js:251-300 | stage, new state and sends are `Dispatcher.FromFavorites`'s |
| Bot.Bot.HandleInventoryOnward | server.js:262-300 | stage, new state and sends are `Dispatcher.FromInventory`'s |
| Bot.Bot.FindInInventory | server.js:263-286 | cache and item are `Dispatcher.InventoryLookup`'s: the sheet loaded through the cache and matched as written; a load error reads as no item |
| Bot.Bot.ReplyItem | server.js:266-282 | the appended sends are `Dispatcher.ItemReply`'s |
| Bot.Bot.HandleCloseIntentOnward | server.js:289-300 | stage, new state and sends are `Dispatcher.FromCloseIntent`'s |
| Bot.Bot.HandleRulesOnward | server.js:296-300 | stage, new state and sends are `Dispatcher.FromRules`'s, including the silent end on a rules-feed error |
| Scenarios.SampleIndex | server.js:82-83 | the sample header maps code, name, stock and price to columns 0 to 3 |
| Scenarios.ZeroParses | server.js:90-91 | a "0" cell reads as the number 0 |
| Scenarios.SampleSheetDecodes | server.js:79-93 | the sample sheet parses to the one bear row |
| Scenarios.AskForBearMatches | server.js:97-103 | "quiero el OSO1" finds the bear by its code, ignoring case, with the matcher as written and with the corrected one |
| Scenarios.SampleLookup | server.js:263-265 | with a stale cache, the lookup loads the sample sheet, stamps it with the current time and finds the bear |
| Scenarios.CardTaken | server.js:226-234 | while a card is awaited, "Feliz cumple Ana" is echoed, forwarded and ends the wait |
| Scenarios.HolaShowsMenu | server.js:240-249 | with no card awaited and no form, "hola" shows the menu and changes nothing |
| Scenarios.OneArmsCard | server.js:251-260 | with no card awaited and no form, "1" sets the card flag, stores no form and keeps every stored form pending |
| Scenarios.CardOrderConversation | server.js:226-260 | "hola" shows the menu; "1" arms the card capture; the next text is taken as the card, with no form started |
| Scenarios.OutOfStockConversation | server.js:262-273 | asking for OSO1 from the sample sheet gives the out-of-stock reply and alert, and the cache holds the bear |

## Findings

| source | as written | input that shows it | evidently intended | confidence | as-written member | corrected member |
|---|---|---|---|---|---|---|
| server.js:97-103 | a row may reach `findItemByText` with an empty code or an empty name, because the filter at line 93 keeps a row that has either; `t.includes("")` is then true, so that row answers every text that reaches the inventory stage | sheet row `,oso de peluche,3,0` and the customer text "gracias" | match only on a non-empty code or name that the text mentions | not executed | Inventory.BlankCodeAnswersAnything | Inventory.FindItemByTextMentioned |

`Inventory.FindItemByTextAsWritten` is the matcher as written. The stage chain uses it:
`Dispatcher.InventoryLookup` and `Bot.Bot.FindInInventory`. So the chain keeps the
defect, and `Dispatcher.BlankCodeRowAnswersEveryText` shows its effect on a whole
message: "lo compro" gets the blank-code row's replies instead of the close-intent alert.
`Inventory.FindItemByText` is the corrected matcher, proved separately
(`Inventory.FindItemByTextMentioned`, `Inventory.FindItemByTextFirst`).
`Inventory.AsWrittenAgreesWhenKeyed` shows the two agree on every sheet where each
row has both a code and a name.

## Left out

- The Express application, the GET verification endpoint and the envelope
  unpacking (server.js:195-213). The model starts from the first message's
  sender, type and text body.
- The network: WhatsApp sends, operator alerts and the sheet fetches.
  - Sends and alerts are recorded in order as events.
  - The text each sheet would serve, or a fetch failure, is an input.
  - A failing send is not modelled. This includes one inside the inventory
    `try` block, which the `catch` would swallow.
  - An unset `ALERT_WHATSAPP_TO`, which makes alerts no-ops, is not modelled.
- Message wording and formatting are left out.
  - Replies are recorded by kind, with the parts that vary.
  - `notifyAlert`'s message layout, `toLocaleString` on prices and the alert's
    timestamp are not modelled.
- Time zones: `isBusinessHours` takes the local hour as an input instead of
  converting `new Date()` to `TIMEZONE`.
- The business-hour window is part of the configuration input. Reading
  `BUSINESS_START` and `BUSINESS_END` from the environment, with their
  defaults 9 and 18 (server.js:14-15), is not modelled.
- The clock and the TTLs: `Date.now()` and
  `Number(process.env.*_CACHE_SECONDS || 120) * 1000` are inputs in
  milliseconds.
- Inventory.ParseNumber: only optional-sign decimal integers are parsed. Every
  other `Number()` result is `NotInteger`: fractions, exponents, hexadecimal,
  `Infinity` and `NaN`.
- Inventory.InStock: false for a fractional stock such as "0.5", which the
  source counts as in stock, because such a cell reads as `NotInteger`.
- Dispatcher.ItemReply: quotes no price for a fractional price, for the same
  reason.
- Forms.Put: keys are kept in first-insertion order. A JavaScript object
  instead lists integer-like keys first, in numeric order. An assignment to a
  field named `__proto__` is also not special-cased.
- Text.LowerChar and Text.UpperChar map case for ASCII and Latin-1 only.
  - Other scripts, and multi-character mappings such as the upper case of "ß",
    are not modelled.
  - Strings are sequences of code points, not UTF-16 units. `slice(0, 500)` can
    therefore differ for text outside the Basic Multilingual Plane.
- Concurrency: interleaved `await`s of two webhook calls are not modelled. Each
  message is handled to completion before the next one.
- The console logging in the inventory `catch`.
- Process survival after a rules-feed error: the model assumes the rejected
  webhook promise leaves the process running with its state. A Node.js
  setting that ends the process on an unhandled rejection would also drop
  the sessions and caches; that is not modelled.
