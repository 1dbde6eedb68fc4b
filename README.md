# Chatbot demo front end and device report: a verified Dafny model

This project models the text and data handling at the heart of a demo web
application that talks to hosted language models, and of a small report
script that ships next to it.

- **The chatbot reply formatter** (`formatBotResponse`, in the chatbot
  page). A model's raw reply is trimmed and split into lines. Two regular
  expressions classify the lines as numbered (`^\d+\.\s`) or bulleted
  (`^[\-\*\+\â€¢]`). A reply with neither kind comes back as the untrimmed
  reply with its first `.com` domain turned into a link. Otherwise each
  line becomes one HTML fragment inside a single `<ol>` or `<ul>`
  wrapper. The model also covers the switch that picks the HTTP endpoint
  for the chosen model.
- **The `.com` link pattern** `\b(?:[\w-]+\.)+(?:com)\b/i`. It is modelled
  twice: once as the greedy, backtracking matcher a regular-expression
  engine runs, and once as a declarative reading (the leftmost start,
  and the longest match there). The two are proved to agree.
- **The main page's helpers.**
  - The loop of `base64ToBlob` that cuts a decoded string into 512-byte
    `Uint8Array` chunks.
  - `getSelectedDescription`, which finds the first translation in the
    selected language.
  - The translation list: `handleTranslations` seeds it with the English
    original and sends one prompt per language. Each successful
    `callai21` appends one entry.
- **The device report** (`testing.py`). Registered devices are grouped by
  customer, then by location, and each device keeps only its id and name.

Files:

- `wrappers.dfy`: `Option`.
- `js_text.dfy`: JavaScript's `trim` and `split('\n')` and the character
  classes `\s`, `\d` and `\w`.
- `com_links.dfy`: the link pattern and the `replace` that uses it.
- `chatbot.dfy`: the endpoint switch, the formatter, and the formatter's
  properties and worked examples.
- `app.dfy`: the main page's helpers.
- `device_grouping.dfy`: the report script.

Operations that work step by step in the source are Dafny methods with
loops:
- the formatter's two `forEach` passes with their flags and buffer;
- the chunking loop, which fills a `byteNumbers` array;
- the lookup loop with its early return;
- the loop that sends the translation requests;
- the three nested grouping loops.

Each of these methods is proved equal to a specification function.
Lemmas then state what the source promises about that function.

Mixed replies do not behave the way a block-by-block reading of the
formatter suggests. That reading has a numbered reply close its list at
a bulleted line and show the line as a paragraph (`- banana`). The code
does something else: it sets both flags, picks `<ol>`, and still turns
every bulleted line into an `<li>` item (the `else if` at
`source/src/ChatbotApp.js:152`). This model follows the code. So
`"1. apple\n- banana"` becomes `<ol><li>apple</li><li> banana</li></ol>`.

The bullet glyph in the source pattern is stored mis-encoded. The class
therefore holds `-`, `*`, `+` and the three characters U+00E2, U+20AC and
U+00A2, not U+2022. The model uses those six characters.

## Model

| member | source | states |
|---|---|---|
| JsText.TrimStart | source/src/ChatbotApp.js:123 | the leading part `trim` drops is all JavaScript whitespace (WhiteSpace and LineTerminator), what remains is a suffix of the input, and it starts with a non-whitespace character or is empty |
| JsText.TrimEnd | source/src/ChatbotApp.js:123 | the trailing part dropped is all whitespace, what remains is a prefix, and it ends with a non-whitespace character or is empty |
| JsText.TrimSpec | source/src/ChatbotApp.js:123 | `trim()` removes exactly whitespace padding on both sides and leaves a string whose ends are not whitespace |
| JsText.TrimOfTrimmed | source/src/ChatbotApp.js:123 | a string whose first and last characters are not whitespace is left unchanged by `trim()` |
| JsText.Split | source/src/ChatbotApp.js:123 | `split('\n')` gives at least one piece, no piece contains `'\n'`, and joining the pieces with `'\n'` gives back the string |
| JsText.SplitJoin | source/src/ChatbotApp.js:123 | splitting undoes joining for pieces free of the separator |
| JsText.SplitCount | source/src/ChatbotApp.js:123 | the number of lines is one more than the number of `'\n'` characters |
| ComLinks.DottedRunFirstSegment | source/src/ChatbotApp.js:121 | a run of one or more `[\w-]+\.` segments is its first segment (the label run and a dot) followed by nothing or by another such run |
| ComLinks.GreedyTail | source/src/ChatbotApp.js:121 | the backtracking run of `(?:[\w-]+\.)*com\b`, trying one more segment before `com`, returns the longest way to finish the pattern from a position, or none exactly when there is none |
| ComLinks.MatchAt | source/src/ChatbotApp.js:121 | at one start, the engine's attempt returns the longest match beginning there, or none exactly when no match begins there |
| ComLinks.FirstMatchFrom | source/src/ChatbotApp.js:121 | scanning starts left to right finds the leftmost start with a match and the longest match at that start; none means no match at or after the given position |
| ComLinks.FirstMatch | source/src/ChatbotApp.js:121 | the match a search without the `g` flag finds is the leftmost-longest one; none means the string holds no match |
| ComLinks.LeftmostLongestUnique | source/src/ChatbotApp.js:121 | the leftmost-longest match is unique |
| ComLinks.LinkifySpec | source/src/ChatbotApp.js:142 | `replace(regexURL, …)` wraps the leftmost-longest match X as `<a href="http://X" target="_blank">X</a>`, keeps everything before and after it, and leaves a string without a match unchanged |
| ComLinks.LinkifyAt | source/src/ChatbotApp.js:142 | the link is placed at the leftmost-longest match, wherever that is |
| ComLinks.LinkifyWhole | source/src/ChatbotApp.js:142 | a string that is one match from end to end is wrapped whole |
| ComLinks.NoDotNoLink | source/src/ChatbotApp.js:142 | text without a dot is never rewritten |
| ComLinksExamples.ChainedDomainsAreOneMatch | source/src/ChatbotApp.js:121 | `a.com.b.com` is one match: the greedy `+` takes both domains |
| ComLinksExamples.ComMustEndAWord | source/src/ChatbotApp.js:121 | `a.comb` holds no match: `com` must end a word |
| Chatbot.ApiMethod | source/src/ChatbotApp.js:19-29 | the endpoint is `/api/call-python4` exactly for `AI21`, `/api/call-python1` exactly for `Amazon`, and `/api/conversation/predict-claude` exactly for every other name |
| Chatbot.LeadingDigits | source/src/ChatbotApp.js:119 | the length of the maximal run of decimal digits that starts the line |
| Chatbot.NumberedItemIff | source/src/ChatbotApp.js:119 | the numbered test holds exactly when the line starts with one or more digits, a dot and one whitespace character, and the digit count of that prefix is unique |
| Chatbot.DigitRunCovers | source/src/ChatbotApp.js:119 | a digit run at the start of a line is no longer than the maximal one |
| Chatbot.StripNumbered | source/src/ChatbotApp.js:151 | `line.replace(regexNumberedList, '')` leaves the part of the line after its `digits '.' whitespace` prefix |
| Chatbot.NumberedIsNotBulleted | source/src/ChatbotApp.js:132-137 | a numbered line never counts as bulleted: it starts with a digit |
| Chatbot.ClassifyLines | source/src/ChatbotApp.js:130-139 | after the first pass, `isNumberedList` holds iff some line is numbered, and `isBulletedList` holds iff some line is not numbered but starts with a bullet character |
| Chatbot.BuildList | source/src/ChatbotApp.js:145-169 | the second pass with its `listItems` buffer and flushes yields the wrapper tag, then every line's fragment in line order, then the closing tag |
| Chatbot.FormatBotResponse | source/src/ChatbotApp.js:118-170 | the formatter returns the link-substituted untrimmed reply when no line is an item, and otherwise one wrapper around one fragment per trimmed line |
| ChatbotProperties.ListBodyAppend | source/src/ChatbotApp.js:149-165 | the fragments of two consecutive blocks of lines are those of the first block followed by those of the second: no fragment is dropped, reordered or influenced by another line |
| ChatbotProperties.PlainReply | source/src/ChatbotApp.js:141-143 | with neither flag set, the output is the untrimmed reply with only its first `.com` match linked, and the reply itself when it holds no match |
| ChatbotProperties.ListReply | source/src/ChatbotApp.js:145-169 | with a flag set, the output opens with `<ol>` if some line is numbered and `<ul>` otherwise, ends with the matching closing tag, and holds the lines' fragments in between |
| ChatbotProperties.NumberedLine | source/src/ChatbotApp.js:150-151 | a numbered line becomes `<li>`, the link-substituted rest of the line after its prefix, and `</li>` |
| ChatbotProperties.BulletedLine | source/src/ChatbotApp.js:152-153 | a bulleted line becomes `<li>`, the link-substituted line without its first character, and `</li>`, also inside an `<ol>` |
| ChatbotProperties.OtherLine | source/src/ChatbotApp.js:154-160 | a line that is neither kind of item becomes the link-substituted line and a `'\n'`, inside the wrapper |
| ChatbotExamples.TwoLines | source/src/ChatbotApp.js:123 | a reply made of two lines with non-whitespace outer ends splits into exactly those two lines |
| ChatbotExamples.NumberedThenBulleted | source/src/ChatbotApp.js:145-169 | a numbered line followed by a bulleted one gives one `<ol>` holding two `<li>` items |
| ChatbotExamples.MixedListIsOneOrderedList | source/src/ChatbotApp.js:118-170 | `"1. apple\n- banana"` is formatted as `<ol><li>apple</li><li> banana</li></ol>` |
| App.ToUint8 | source/src/App.js:129 | the `Uint8Array` conversion keeps a number below 256 and otherwise reduces it modulo 256 |
| App.BinaryStringCodes | source/src/App.js:126-129 | for a string decoded by `atob` (every code below 256), byte `i` equals `charCodeAt(i)` |
| App.Base64ToChunks | source/src/App.js:121-131 | the loop makes ceil(n/512) chunks, no chunks for an empty string; all are full 512-byte chunks but the last, which holds 1 to 512 bytes; byte `i` of chunk `k` is the code at `512*k + i`; read in order, the chunks are the string's bytes with nothing lost or repeated |
| App.Lookup | source/src/App.js:383-389 | the lookup finds nothing exactly when no entry has the selected language, and otherwise the description of the first entry that has it |
| App.GetSelectedDescription | source/src/App.js:383-389 | the scan with early return gives the lookup's answer |
| App.LookupFirst | source/src/App.js:383-389 | when entry `i` is the first with the selected language, the answer is its description |
| App.Seed | source/src/App.js:300-306 | the list starts with exactly one entry; English finds the original description and no other language finds anything |
| App.PromptDeterminesRequest | source/src/App.js:310 | two prompts `Translate this to <L>: <description>` are equal only for the same language and the same description, when language names hold no colon |
| App.FirstColonAfterLanguage | source/src/App.js:310 | the first colon after the 18-character lead-in of a prompt ends the language name |
| App.HandleTranslations | source/src/App.js:284-317 | the list is seeded with the English entry, and one request per language is sent in the order Spanish, French, German, each with its own prompt, `maxTokens` 200 and the AI21 endpoint |
| App.Settle | source/src/App.js:367-373 | a successful call appends one entry with its language and text after the existing ones; a failed call changes nothing |
| App.SettleAllAppends | source/src/App.js:367-373 | in any completion order, the list is what it was followed by one entry per successful call, in completion order |
| App.LookupAppend | source/src/App.js:367-373 | appending an entry never changes what a lookup already found; it is found only for a language not yet in the list |
| App.EnglishSurvives | source/src/App.js:300-306 | however the translations settle, selecting English shows the original description |
| DeviceGrouping.ListOfSet | source/testing.py:72 | `list` of a set comprehension holds each member exactly once |
| DeviceGrouping.GroupDevices | source/testing.py:72-95 | each customer appears once and all customers appear; for each customer, each of its locations appears once and all of them appear; each group holds exactly the id-and-name records of that customer's devices at that location, in input order |
| DeviceGrouping.DevicesAtAppend | source/testing.py:88-91 | the devices from an earlier part of the input come before those from a later part, so input order is kept |
| DeviceGrouping.DevicesAtMembers | source/testing.py:88-91 | a group holds a record exactly when some device of that customer at that location unwraps to it |
| DeviceGrouping.NoEmptyGroup | source/testing.py:80-93 | no location group is empty |
| DeviceGrouping.DeviceInOneGroup | source/testing.py:83-93 | every device's record sits in the group for its customer and location, and that group is the only one for that pair |
| DeviceGrouping.OccurrencesOfDistinct | source/testing.py:72 | a key list built from a set holds each key once |
| DeviceGrouping.LocationSum | source/testing.py:80-93 | the groups at a customer's distinct locations together count each of its devices once |
| DeviceGrouping.CustomerSum | source/testing.py:72-75 | distinct customers that cover every device count each device once |
| DeviceGrouping.EntryTotal | source/testing.py:80-94 | a customer's groups hold exactly as many devices as the customer has |
| DeviceGrouping.PayloadCountsEveryDevice | source/testing.py:72-95 | the group sizes across the whole payload add up to the number of registered devices |

## Left out

- Fetching, `async`/`await`, promises, `setTimeout`, React state setters and rendering are I/O and UI. The model takes their inputs and results as parameters.
- The `isBuffering` and `isBufferingLanguage` flags are left out. Each `callai21` clears them in its `finally`, and `processTranslationQueue` only ever sees an empty queue. So they say nothing about the list.
- `processTranslationQueue` is left out. The queue it reads is never filled: `newQueue` is built but never used.
- The sampling constants of the translation payload (`temperature`, `topP`, the penalties, `stopSequences`) are left out. They are passed along unchanged and never read.
- `atob`, `btoa`, `fileToB64`, `Blob` and the MIME type are browser library calls. Only the slicing loop between them is modelled, and its input is the decoded string.
- JavaScript strings are UTF-16, while Dafny characters are Unicode scalar values. The model's `charCodeAt` is the character's value. This agrees with JavaScript on `atob` output and on any text without surrogate pairs.
- App.Settle: a reply whose body has no `output_text` appends an entry with an undefined description in the source. The model's successful outcome always carries a string.
- `console.log` calls are left out. So is the `print(payload)` that ends the report script.
- A device record in the script that lacks one of its attributes raises `KeyError`. In the model, a record always has all five attributes.
- The order in which Python iterates a set is not modelled. `ListOfSet` may return the members in any order, and every property is proved for all orders.
- The Amazon branch of `sendMessage` and `generatePayload` build request bodies for remote models. They are not part of this model.
- The backend Lambda handler (`lambda_fn.py`), the CDK stacks, and the front-end entry point (`index.js`) are not part of this model. They are thin wrappers over cloud services and configuration without logic of their own.
- Formatting the formatter's own output again is not idempotent in the source: the domain inside `href` would be wrapped again. No such property is claimed.
