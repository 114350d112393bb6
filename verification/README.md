# Verification of the MQTT and data template SDK for AT modules

The SDK runs MQTT and a JSON "data template" protocol on top of an AT-command modem. This project
models its five small, stateful cores in Dafny and proves what they are for. Nothing here is executed.

* **JSON** (`JsonScan`, `JsonTree`, `JsonView`, `JsonToken`, `JsonShift`, `ReportBuilder`, `NumberScan`,
  `ReportRoundTrip`, `TemplateDocument`, `SendPath`): the cursor scanner against concrete syntax trees with white
  space, dotted lookups against lookup in the tree, the report printer and the reader of properties as a round trip,
  and the in-place insertion of "method" as an edit that preserves every other lookup.
* **AT receive pipeline** (`RingBuffer`, `RingInterleaving`, `LineFraming`, `ReceivePath`, `ResponseStore`,
  `CommandRuns`, `CommandTimeouts`): from the interrupt through the ring, the line framing, the split into
  unsolicited and response lines and the response buffer to the callers of commands, with the threads as state machines.
* **Linked list with a live iterator** (`LinkedList`, `PendingList`, `EventTokens`, `Tokens`, `MessageQueue`): a heap
  model of the list, and the request, event and message protocols on it over whole runs.
* **Topics** (`TopicMatch`, `Subscriptions`, `AtScan`, `AtStrings`): the matcher against section 4.7.1 of MQTT 3.1.1,
  the subscription table as a map, and publish lines from text to handler.
* **String rewriting** (`ReplaceSubstr`, and `AtStrings` for un-escaping): in-place loops against their meaning.

`CStrings` and `Decimal` hold the C string, size and numeral functions the others share.

## What the code does and does not do

* A dotted lookup is not cut off at the end of the nested object, so an absent path may be answered
  (`JsonToken.AbsentPathMayBeAnswered`). `JsonToken.PathExact` says when the answer is the tree's, for every key;
  for keys of two parts, such as "data.control", `JsonToken.TwoPartKeyExact` says it in terms of the document: the
  answer is wrong if and only if the object lacks the second part and a later field beside it has it. Both leave out
  strings that begin with a brace: the code takes them for objects (`JsonToken.StringTakenForObject`).
* The scanner counts braces and brackets inside strings too. An object or array is taken whole exactly when these
  marks match (`JsonTree.BlockMeasured`); `{"a":"}"}` is cut short (`JsonTree.BraceInString`).
* On some texts that end in a quote the scanner's cursor passes the terminating NUL: exactly those where that quote
  opens the value looked at (`JsonScan.LeavesAtQuote`). No document does it (`JsonToken.DocumentStays`).
* The report builder passes the room behind the token document as if it were the size of the whole buffer.
  `ReportBuilder.ConstructReportArray` states exactly at which sizes it succeeds. At some it refuses a report that
  would fit (`RefusedThoughFits`, `RefusalWitness`: 48 characters in a buffer of 75); at those where the passed-on size
  is below the head already printed, the unsigned difference wraps and nothing bounds the prints (`AcceptedOverruns`,
  `OverrunWitness`: a size of 60).
* `_set_template_json_type` takes a size no greater than the document for no bound at all, for the same reason
  (`TemplateDocument.SetTemplateJsonType`).
* The topic matcher accepts more than section 4.7.1. `TopicMatch.MatcherExactly` gives the two families of wrong
  answers, and there are no others.
* `at_client_getchar` may pop a byte and still answer with a timeout. The lines hold all bytes popped exactly when that
  never happens (`LineFraming.FramesPartition`).
* An overlong line flushes the ring. The flush resets the points before it clears the buffer: a byte that the interrupt
  stores before its slot is cleared is read as NUL (`RingInterleaving.PoppedIsPrefix`, `SpoiledByte`).
* The strip that undoes the escaping takes the backslashes in a property for its own. `SendPath.SentReportRestores` says
  exactly which properties come through.
* The buffer-full status of a response is always overwritten (`CommandRuns.FullIsForgotten`): a caller may be told
  success with a line missing (`CommandRuns.SkippedLineToldOk`); `CommandRuns.HasAllLines` says exactly when none is.
* The parser's locals and the module's late lines survive a command that timed out, so that the next command may get
  a wrong result (`CommandTimeouts.TimeoutLeaks`). `CommandTimeouts.QuietExactly` says of every state whether it can.
* A wait that times out between the parser's verdict and its count takes the response away under it: the parser then
  writes the count through a null pointer (`CommandTimeouts.CountThroughNull`, `NullReached`).
* A callback that runs inside a pass may submit a request, and the waiter it belongs to still counts among the ten then
  (`PendingList.Waiting.RunCallback`). Conservation and once-only callbacks hold all the same.
* `include/config.h` defines QUOTES_TRANSFER_NEED and COMMA_TRANSFER_NEED. `escaped` is that build; the plain build is
  its image under `chr_strip` (`ReportRoundTrip.EscapedReport`, `TemplateDocument.EscapedInsert`).

## Model

| member | source | states |
|---|---|---|
| `JsonScan.JsonGetObject` | `src/utils/json_parser.c:43-56` | the cursor is on the first character after the spaces if that is `{`, else none, for every text |
| `JsonScan.FindValue` | `src/utils/json_parser.c:81-108` | the loop stops on the first character that opens a value, or at the end |
| `JsonScan.MeasureValue` | `src/utils/json_parser.c:109-155` | the loop with the depth counter gives the length up to the matching close mark, the end of the number, or 0 for a value that does not end |
| `JsonScan.JsonGetNextObject` | `src/utils/json_parser.c:58-170` | what one call reports, for every text; a returned cursor is none or strictly further on, and key and value lie inside the text |
| `JsonScan.EntriesWithin` | `src/utils/json_parser.c:172-202` | every member handed to the callback lies after the cursor, inside the text, with a key and a value that are not empty |
| `JsonScan.JsonGetValueByName` | `src/utils/json_parser.c:172-258` | the member loop with the callback that compares names finds the first reported member of that name, wherever its cursor stays in the text |
| `JsonScan.LeavesAtQuote` | `src/utils/json_parser.c:81-155` | one turn takes the cursor past the text's end if and only if the quote that opens the value is the last character; that turn never finds a name |
| `JsonScan.LoopStaysUnlessQuote` | `src/utils/json_parser.c:172-202` | in a text that does not end in a quote the loop never leaves the text |
| `JsonScan.QuoteAtEnd` | `src/utils/json_parser.c:81-155` | texts ending in a quote: a lone one is harmless, one that opens a value is not, unless the name was found before |
| `JsonTree.BlockMeasured` | `src/utils/json_parser.c:109-155` | the depth counter takes the whole of an object or array if and only if the marks inside, those in strings included, match |
| `JsonTree.WalkValue` | `src/utils/json_parser.c:109-155` | a whole value without such marks in its strings leaves the depth counter where it was, however deeply nested |
| `JsonTree.CleanIsWellFormed` | `src/utils/json_parser.c:109-155` | values of the grammar of RFC 8259, without escapes, whose objects hold no braces and whose arrays hold no brackets in strings meet that condition throughout |
| `JsonTree.BraceInString` | `src/utils/json_parser.c:109-155` | a value that does not: {"a":"}"} is cut short |
| `JsonTree.Unended` | `src/utils/json_parser.c:109-155` | a value whose end does not come, or a literal that is none, has length 0 and is not reported |
| `JsonView.MeasureWhole` | `src/utils/json_parser.c:109-165` | the scanner reports the right part of every value whose marks match: a string's inside, a number without its exponent, an object or array as a whole |
| `JsonView.NextOnField` | `src/utils/json_parser.c:58-170` | on the text of a member, with any white space, one call reports its key, its value, its kind and the position after it |
| `JsonView.EntriesOfFields` | `src/utils/json_parser.c:172-202` | the loop hands over exactly the members shown in the text, in order, leaving out empty keys and empty values |
| `JsonToken.MemberLoopAgrees` | `src/utils/json_parser.c:172-202` | where the marks in each top-level value match, the loop yields exactly the top-level members of the tree, in order: keys, texts of the values, kinds |
| `JsonToken.MemberLoopExact` | `src/utils/json_parser.c:172-202` | of every object text of the grammar without empty keys: the loop yields exactly its top-level members if and only if the marks in each top-level value match |
| `JsonToken.LiteJsonValueOf` | `src/utils/json_token.c:30-74` | the loop over the parts of a dotted key computes the recursive lookup, for every key and every text in which the cursor stays |
| `JsonToken.KeyStaysUnlessQuote` | `src/utils/json_token.c:30-74` | it stays in every text that does not end in a quote |
| `JsonToken.DocumentStays` | `src/utils/json_token.c:30-74` | it stays in every object text, whatever follows it without quotes, for every key |
| `JsonToken.PresentPathsAgree` | `src/utils/json_token.c:45-73` | on trees: where a path exists, the lookup that runs on past a nested object agrees with the lookup that stays inside |
| `JsonToken.FlatIsTreeOrOutside` | `src/utils/json_token.c:45-73` | on trees, for every path: the code's lookup is the tree's, or else a lookup of the first missing part and the rest of the path in the fields that follow the enclosing objects |
| `JsonToken.TwoPartsExact` | `src/utils/json_token.c:45-73` | on trees: a path of two parts is answered right if and only if it is not so that the object lacks the second part and a later field beside it has it |
| `JsonToken.DocumentLookup` | `src/utils/json_token.c:30-74` | for every document and every key the answer is exactly the lookup that runs on into the fields after a nested object |
| `JsonToken.PathExact` | `src/utils/json_token.c:30-74` | for every document and every key the answer is the tree's if and only if the path does not leave its object, or the rest of it is not found in the fields behind |
| `JsonToken.TwoPartKeyExact` | `src/data_template/data_template_client_json.c:357-361` | the same for keys of two parts such as "data.control", with a condition a caller can check on the document |
| `JsonToken.PresentPathFound` | `src/utils/json_token.c:30-74` | a path that the tree has is answered with the text of the first value there |
| `JsonToken.PlainKeyExact` | `src/utils/json_token.c:30-74` | a key without a dot is answered as in the tree, found or not, where the marks in each top-level value match |
| `JsonToken.ArrayRead` | `src/utils/json_parser.c:109-155` | an array in an array, as text, and what is read of it |
| `JsonToken.ObjectRead` | `src/utils/json_parser.c:109-155` | an object in an object, as text, and what is read of it |
| `JsonToken.NumberReadInText` | `src/utils/json_parser.c:93-108` | a number with sign, point and exponent, as text, and what is read of it |
| `JsonToken.LiteralRead` | `src/utils/json_parser.c:98-136` | each of the six literals, as text, is read whole |
| `JsonToken.AbsentPathMayBeAnswered` | `src/utils/json_token.c:58` | a concrete document in which an absent path is answered with a value from outside the nested object |
| `JsonToken.StringTakenForObject` | `src/utils/json_token.c:58` | a concrete text in which a string that begins with a brace is taken for an object, so that a key no object has is answered |
| `JsonToken.SplitJoin` | `src/utils/json_token.c:45-56` | every path of names without dots is what the code makes of the dotted key |
| `JsonShift.NextShift` | `src/utils/json_parser.c:58-170` | moving a text moves what the scanner finds: nothing before the cursor matters |
| `JsonShift.ValueOfShift` | `src/utils/json_token.c:30-74` | the same for dotted lookups |
| `TemplateDocument.ShiftBack` | `src/data_template/data_template_client_json.c:49-61` | the loop that moves the tail, last character first, shifts it without overwriting what is still to be moved |
| `TemplateDocument.InsertStr` | `src/data_template/data_template_client_json.c:49-61` | shift, copy and NUL together are sequence insertion, and change nothing behind; past the end of the text the text stays as it is |
| `TemplateDocument.SetTemplateJsonType` | `src/data_template/data_template_client_manager.c:191-241` | for every size: succeeds exactly for a known method whose member fits with room to spare, or when the size is no greater than the document; then that member, spelled out per method, stands after the first character, save in an empty document, which stays empty |
| `TemplateDocument.MemberSpelled` | `src/data_template/data_template_client_manager.c:199-231` | the member printed for each method, in both builds, letter by letter |
| `TemplateDocument.MethodInserted` | `src/data_template/data_template_client_manager.c:191-241` | in the edited document "method" is the method name, for every document that starts with `{` |
| `TemplateDocument.OthersKept` | `src/data_template/data_template_client_manager.c:191-241` | every key whose first part is not "method" looks up as before the edit, dotted keys included |
| `TemplateDocument.EscapedInsert` | `src/data_template/data_template_client_manager.c:208-241` | with QUOTES_TRANSFER_NEED and COMMA_TRANSFER_NEED: stripping the edited document gives the edit of the stripped document |
| `ReportBuilder.Snprintf` | `src/data_template/data_template_client_json.c:118-138` | the text is cut to the size, ends in NUL, and its whole length is returned |
| `CStrings.RemainIsModulo` | `src/data_template/data_template_client_json.c:118` | the room left is the difference modulo 2^32, so that it wraps for a text longer than the size |
| `ReportBuilder.PutJsonNode` | `src/data_template/data_template_client_json.c:112-185` | for every size: succeeds exactly when the node with its comma fits, or when the text is already longer than the size and the difference wraps; then has appended it |
| `ReportBuilder.IntSpelled` | `src/data_template/data_template_client_json.c:140-165` | a number is printed with a minus exactly if it is negative |
| `ReportBuilder.BuildEmptyJson` | `src/data_template/data_template_client_json.c:268-274` | prints the token document, never cut for a product id within its limit, and moves the counter on |
| `ReportBuilder.PutNodes` | `src/data_template/data_template_client.c:277-288` | the loop succeeds exactly when no property is null and all nodes fit in the size it passes on, or that size is below the printed head |
| `ReportBuilder.ConstructReportArray` | `src/data_template/data_template_client.c:248-309` | for every size: the exact size condition for success, and the whole report on success |
| `ReportBuilder.ReportSpelled` | `src/data_template/data_template_client.c:248-309` | a report of one number, letter by letter, in both builds |
| `ReportBuilder.ClosedIsReport` | `src/data_template/data_template_client.c:289-301` | with a property at least, overwriting the last comma gives the report as printed in one go |
| `ReportBuilder.AcceptedOverruns` | `src/data_template/data_template_client.c:267-283` | an accepted report is longer than the size if and only if the passed-on size is below the printed head, so that nothing bounds the prints, and the size is below the nodes |
| `ReportBuilder.RefusedThoughFits` | `src/data_template/data_template_client.c:277-309` | a report that would fit is refused if and only if the size leaves less room behind the nodes than the token document takes, or next to none where nothing bounds the prints |
| `ReportBuilder.OverrunWitness` | `src/data_template/data_template_client.c:267-283` | a size of 60 with a product id of ten characters in the escaped build: every report past 60 characters is accepted |
| `ReportBuilder.RefusalWitness` | `src/data_template/data_template_client.c:277-288` | a report of 48 characters that is refused in a buffer of 75 |
| `ReportRoundTrip.ReportIsTree` | `src/data_template/data_template_client.c:248-309` | the printed report is the text of the tree of token and properties |
| `ReportRoundTrip.NoBracesMatch` | `src/data_template/data_template_client.c:248-309` | properties without braces in their strings make a report whose braces match |
| `ReportRoundTrip.ScanPrinted` | `src/utils/json_token.c:137-159` | reading a printed number with %i or %u gives the number back |
| `ReportRoundTrip.DeviceProperty.UpdateValueIfKeyMatch` | `src/data_template/data_template_client_json.c:334-349` | updates the property exactly when the key is found and its text does not begin with null or NULL; stores, for every text and by type: false for "false" only, the first characters of a string that the buffer holds, the number of the numeral the text begins with; else leaves it |
| `ReportRoundTrip.ParsedIsStored` | `src/data_template/data_template_client_json.c:64-102` | the same of the specification |
| `ReportRoundTrip.RangesSpelled` | `src/utils/json_token.c:137-159` | the ranges of the six integer types |
| `NumberScan.NumberRead` | `src/utils/json_token.c:137-159` | %i and %u on every text: white space, a sign, for %i the base by 0x or 0, then the value of all digits of that base; nothing where there are no digits |
| `NumberScan.HasNumeral` | `src/utils/json_token.c:137-159` | every text has such a numeral, which may have no digits |
| `NumberScan.DigitTable` | `src/utils/json_token.c:137-159` | the sixteen digits, small and capital |
| `NumberScan.TextsRead` | `src/utils/json_token.c:137-159` | five texts and their numbers, octal, hexadecimal and none among them |
| `ReportRoundTrip.ValueRestored` | `src/data_template/data_template_client_json.c:64-102` | the reader undoes the printer on one value, exactly unless it is missing, empty, null-like or longer than the reader's buffer |
| `ReportRoundTrip.ReportRestores` | `src/data_template/data_template_client.c:248-309` | build a report of any properties with distinct keys, take out "params", update a property from it: the original value is back, with the exact condition |
| `ReportRoundTrip.EscapedReport` | `src/data_template/data_template_client_manager.c:368-375` | stripping the report of the escaped build gives the report of the plain build, of the same properties less the backslashes in them |
| `SendPath.TokenRead` | `src/data_template/data_template_client_manager.c:368-381` | the token the client reads from the stripped copy of its own report is the one the report was built with, whatever the properties hold |
| `SendPath.SentReportReads` | `src/data_template/data_template_client_manager.c:359-414` | after printing, inserting the method and stripping, the far end finds the method and the token whatever the properties hold, and "params", less the backslashes in it, where the braces in it match |
| `SendPath.SentReportRestores` | `src/data_template/data_template_client_manager.c:359-414` | and every property is read back from the sent document as it was if and only if it is not lost as in the plain round trip and holds no backslash before its last character |
| `AtStrings.StripInvertsEscaping` | `src/module_at/at_utils.c:357-369` | a text strips to `t` and has no dangling last mark exactly when it is an escaping of `t` |
| `AtStrings.StripEscape` | `src/module_at/at_utils.c:357-369` | marking every character of any set that contains the mark, then stripping, gives the text back |
| `AtStrings.BaredQuoted` | `src/module_at/at_utils.c:357-369` | what stripping leaves of any text between two escaped quotes: a last mark that dangles stays, the other marks go |
| `AtStrings.BaredExactly` | `src/module_at/at_utils.c:357-369` | such a text comes through unchanged if and only if it has no mark before its last character; else it is shorter |
| `AtStrings.ChrStrip` | `src/module_at/at_utils.c:357-371` | the in-place walk computes the strip although its end pointer never moves, and writes nothing after the original text |
| `AtStrings.AtStrip` | `src/module_at/at_utils.c:337-355` | removes one mark at each end, in place |
| `AtStrings.UnquoteExactly` | `src/module_at/at_utils.c:337-355` | what at_strip leaves of a text with a mark at both ends, at one end, at none, and of a lone mark |
| `AtScan.CopyText` | `src/module_at/at_utils.c:173-214` | the copying loops take out exactly the six characters of isspace and keep all others in order; %s stops at a comma, %S does not |
| `AtScan.SiftedOnce` | `src/module_at/at_utils.c:205-212` | taking these characters out leaves one text only |
| `AtScan.SpaceIsWhite` | `src/module_at/at_utils.c:205-212` | the six characters are blank, tab, line feed, vertical tab, form feed and carriage return |
| `AtScan.StrToUl` | `src/module_at/at_utils.c:248-302` | reads the longest run of digits and its value, or 4294967295 where that is more than 32 bits hold |
| `AtScan.AtSscanf` | `src/module_at/at_utils.c:101-305` | the two-cursor loop computes the recursive scan, for every buffer and every format of literals, white space, %s, %u and %S |
| `AtScan.PublishLineParses` | `src/mqtt/mqtt.c:183-205` | parsing any publish line whose topic has no comma and no white space recovers the quoted topic, the length (saturated at 32 bits) and the quoted payload with exactly its white space taken out |
| `TopicMatch.SkipLevel` | `src/mqtt/mqtt.c:151-155` | the inner loop stops on the last character of the level |
| `TopicMatch.IsTopicMatched` | `src/mqtt/mqtt.c:127-170` | the loop with its two cursors computes the recursive matcher, for every filter and every name, save an empty name where the filter begins with `+` |
| `TopicMatch.MatcherExactly` | `src/mqtt/mqtt.c:127-170` | a well-formed filter accepts a name if and only if section 4.7.1 of MQTT 3.1.1 does, or the name is in one of two further families; it accepts wrongly if and only if the name is in one of them |
| `TopicMatch.FamiliesAreWrong` | `src/mqtt/mqtt.c:165-169` | no name in the two families is a match of section 4.7.1 |
| `TopicMatch.MatcherIsComplete` | `src/mqtt/mqtt.c:127-170` | no match of section 4.7.1 is missed |
| `TopicMatch.ExactWithoutHash` | `src/mqtt/mqtt.c:127-170` | without `#`, on names not ending in `/` or with `+` only as the last level, exactly section 4.7.1 |
| `TopicMatch.ExactWithoutWildcards` | `src/mqtt/mqtt.c:110-112` | a filter without wildcards matches its own text only |
| `TopicMatch.MatcherAcceptsMore` | `src/mqtt/mqtt.c:165-169` | one input in each further family: `a/#` takes `ab`, `a/+/b` takes `a/` |
| `Subscriptions.Subscriber.constructor` | `src/mqtt/mqtt.c:20-21` | the table starts empty |
| `Subscriptions.Subscriber.RegisterSubTopic` | `src/mqtt/mqtt.c:24-101` | the two loops compute the new table; while a message is delivered the call is refused and changes nothing |
| `Subscriptions.RegisteredDistinct` | `src/mqtt/mqtt.c:24-101` | no call makes two slots hold the same filter |
| `Subscriptions.RegisteredTable` | `src/mqtt/mqtt.c:24-101` | the table is a map: without a callback the filter is removed, with one it is set, refused exactly when it is new and all slots are taken |
| `Subscriptions.Subscriber.DeliverMessage` | `src/mqtt/mqtt.c:183-243` | runs the callback of the lowest slot whose filter is the topic or, by levels, matches it as the matcher does, or none if no filter does, and releases the lock |
| `Subscriptions.DeliveredExactly` | `src/mqtt/mqtt.c:218-231` | the same of the specification, for every table, with ill-formed filters left to the matcher |
| `Subscriptions.PlainFiltersExact` | `src/mqtt/mqtt.c:110-112` | where no filter holds a wildcard, the callback called is that of the slot whose filter is the topic |
| `Subscriptions.OneHandlerRuns` | `src/mqtt/mqtt.c:218-231` | at most one callback runs; one does if and only if some slot takes the topic |
| `Subscriptions.SubscriptionServed` | `src/mqtt/mqtt.c:218-231` | a subscription whose filter matches by section 4.7.1 always leads to exactly one callback, of its slot or a lower one |
| `Subscriptions.PublishLineDelivered` | `src/mqtt/mqtt.c:183-243` | every publish line within the length limits, its topic without comma and white space, is delivered with its own topic and its payload with exactly the white space taken out |
| `Subscriptions.WireLineDelivered` | `src/mqtt/mqtt.c:183-243` | the same of the line as it comes from the wire, CR LF at its end; a payload without white space is handed over as it is |
| `ReplaceSubstr.LiteReplaceSubstr` | `src/utils/string_utils.c:145-172` | the in-place loop with moving bound and index ends and computes the replacement, for a text of any length that lacks the key and for one that fits `tmp` before and after |
| `ReplaceSubstr.ReplaceNothing` | `src/utils/string_utils.c:145-172` | a text without the key stays as it is |
| `ReplaceSubstr.CopySwapped` | `src/utils/string_utils.c:163-169` | the four copies by way of `tmp` put the swap in place of the key |
| `ReplaceSubstr.ReplaceIsGlue` | `src/utils/string_utils.c:145-172` | the result glues with the swap the pieces that the key glues to the original |
| `ReplaceSubstr.PartsAreLeftmost` | `src/utils/string_utils.c:145-172` | those pieces are cut at the leftmost occurrences, not overlapping, and none is left in the last piece |
| `ReplaceSubstr.ReplaceBySelf` | `src/utils/string_utils.c:145-172` | replacing a key by itself changes nothing |
| `RingBuffer.RingBuff.constructor` | `src/module_at/ringbuff.c:15-25` | the ring starts empty and not full |
| `RingBuffer.RingBuff.Flush` | `src/module_at/ringbuff.c:27-36` | empty and not full again |
| `RingBuffer.RingBuff.PushByte` | `src/module_at/ringbuff.c:47-66` | a byte is appended when fewer than size - 1 are stored, else refused and `full` set |
| `RingBuffer.RingBuff.PopByte` | `src/module_at/ringbuff.c:80-99` | gives and removes the oldest byte |
| `RingBuffer.RingBuff.PushData` | `src/module_at/ringbuff.c:38-69` | a batch push appends the prefix that fits in size - 1 bytes, OK exactly when all of it fits, FULL with the flag set when not, TOO_SHORT for a length above the size or below 0 |
| `RingBuffer.RingBuff.PopData` | `src/module_at/ringbuff.c:71-102` | a batch pop gives the oldest bytes, at most `len`, and leaves the rest of the caller's array alone |
| `RingBuffer.FullMeansRefused` | `src/module_at/ringbuff.c:38-69` | over all sequences of operations: `full` is set if and only if some push was refused since the start or the last flush |
| `RingBuffer.RingConserves` | `src/module_at/ringbuff.c:38-102` | over all sequences without a flush: bytes given, then bytes stored, are the bytes taken |
| `RingInterleaving.InvNext` | `src/module_at/ringbuff.c:27-102` | with the pop split into test, advance and load and the flush into the stores of the two points and of each slot, every step of interrupt or reader keeps: popped bytes, then the pending ones, are what the ring was given since the last flush |
| `RingInterleaving.ReadSlotKept` | `src/module_at/ringbuff.c:47-66` | the interrupt never writes the slot under the read point |
| `RingInterleaving.PoppedIsPrefix` | `src/module_at/ringbuff.c:27-102` | in every state of every run the bytes popped since the last flush are the first of those accepted since, except that exactly those whose slots were cleared after they had come read as NUL |
| `RingInterleaving.SpoiledByte` | `src/module_at/ringbuff.c:27-36` | a run in which the reader gets a NUL where the interrupt stored something else |
| `RingInterleaving.RefusedOnlyWhenFull` | `src/module_at/ringbuff.c:47-66` | a byte is refused exactly when size - 1 are stored |
| `LineFraming.OneUrc` | `src/module_at/module_api_inf.c:302-323` | at most one entry of the table installed on an ESP8266 matches a line, so its order does not matter |
| `LineFraming.Receiver.GetUrcObj` | `src/module_at/at_client.c:618-649` | an entry is found only if the received text is its prefix, anything or nothing, and its suffix, and then no later entry than any such one |
| `LineFraming.MatchesExactly` | `src/module_at/at_client.c:632-645` | an entry takes just the lines made of its prefix, anything or nothing, and its suffix |
| `LineFraming.UrcTaken` | `src/module_at/at_client.c:618-649` | a line of an entry goes to that entry or to one before it |
| `LineFraming.NoneTakes` | `src/module_at/at_client.c:618-649` | a line that begins with no prefix, or ends with no suffix, goes to none |
| `LineFraming.TableTakes` | `src/module_at/module_api_inf.c:302-323` | with the table of an ESP8266 a line of an entry goes to that very entry, bare "WIFI CONNECTED" included |
| `LineFraming.TableLines` | `src/module_at/module_api_inf.c:302-323` | two lines of an ESP8266 and their entries |
| `LineFraming.StopsExactly` | `src/module_at/at_client.c:679-681` | a line ends in CR LF, in the end sign, or where the receive buffer holds a line of some entry, and nowhere else |
| `LineFraming.Receiver.IsEnd` | `src/module_at/at_client.c:679-681` | the three line ends: CR LF, the end sign, a table match |
| `LineFraming.Receiver.ReadLine` | `src/module_at/at_client.c:651-701` | how a call ends, for every sequence of bytes, late bytes and timeouts; the buffer then holds the line, or an overlong line is dropped with the ring flushed |
| `LineFraming.FramesPartition` | `src/module_at/at_client.c:484-511` | the frames in a row, then the open rest, are the bytes popped in time, and all bytes popped if and only if none came late; each line is the shortest beginning that ends one |
| `LineFraming.FramesUnique` | `src/module_at/at_client.c:651-701` | without timeouts, no other cutting of the bytes into shortest lines exists |
| `LineFraming.FramingIgnoresTable` | `src/module_at/module_api_inf.c:302-323` | with a table whose entries all end in CR LF the lines do not depend on the table |
| `ReceivePath.FramesPush` | `src/module_at/at_client.c:651-701` | one more byte or timeout adds at most one line and never changes those already cut |
| `ReceivePath.DroppedAreTimeouts` | `src/module_at/at_client.c:651-701` | exactly as many lines are dropped as there were timeouts |
| `ReceivePath.InvNext` | `src/module_at/at_client.c:651-701` | every step of interrupt, pop, line cutting and flush keeps: the lines are cut from the bytes popped, which are the first the ring was given since the last flush |
| `ReceivePath.LinesAreReceived` | `src/module_at/at_client.c:651-701` | in every run, in every stretch between two flushes: lines, dropped ones as many as timeouts, and open rest are, in a row, the first bytes the ring was given less those popped late; each flush follows an overlong line and each overlong line is followed by one |
| `ReceivePath.NothingLost` | `src/module_at/at_client.c:651-701` | in every run without late bytes and before the first flush the lines and the open rest begin the bytes the interrupt stored |
| `ResponseStore.UsedBelowSize` | `src/module_at/at_client.c:734-748` | the stored bytes stay below the size of the buffer, whatever lines come in |
| `ResponseStore.KeptWhole` | `src/module_at/at_client.c:734-748` | a response is stored whole if and only if it is shorter than the buffer |
| `ResponseStore.WalkStays` | `src/module_at/at_client.c:191-203` | walking strings never leaves the stored lines, whatever bytes they hold |
| `ResponseStore.ReadsBack` | `src/module_at/at_client.c:177-204` | reading back gives every stored line without its last byte if and only if no stored line holds a NUL |
| `ResponseStore.StoreThenLookup` | `src/module_at/at_client.c:177-237` | after any lines, misfits skipped: string k is the k-th kept line, and the keyword finds the first kept line that contains it |
| `ResponseStore.Response.GetLine` | `src/module_at/at_client.c:177-204` | the walk gives the start of that string, or none for a number out of range; without NULs it is that line |
| `ResponseStore.Response.GetLineByKeyword` | `src/module_at/at_client.c:215-237` | the walk gives the first string that contains the keyword; without NULs the first such line |
| `ResponseStore.Parser.Install` | `src/module_at/at_client.c:335-340` | the caller's response becomes current, empty, with status OK |
| `ResponseStore.Parser.Store` | `src/module_at/at_client.c:735-748` | the line's last byte becomes NUL; the line is appended to the response if it fits, else the status is buffer full |
| `ResponseStore.JudgeExactly` | `src/module_at/at_client.c:749-769` | letter by letter: a line ends a response with success if it begins with "OK" and the command waits for that, or if it brings the count to the number waited for and has no "ERROR" before its first NUL and no "FAIL" at its start; with failure if it has such a mark otherwise; and not in any other case |
| `ResponseStore.LinesJudged` | `src/module_at/at_client.c:749-769` | the verdict on "OK", "ERROR", "+CME ERROR: 3" and "FAIL" lines |
| `CStrings.ContainsExactly` | `src/module_at/at_client.c:756` | strstr finds a text exactly if it stands somewhere, letter by letter |
| `ResponseStore.Parser.Check` | `src/module_at/at_client.c:749-769` | memcmp and strstr on the zero-filled receive buffer give that verdict on the line |
| `ResponseStore.Parser.HandleLine` | `src/module_at/at_client.c:724-780` | a line goes to the first matching table entry, else to the response; a line that ends it, as spelled out letter by letter, hands over count and the status that goes with it and resets the parser; no other line does |
| `CommandRuns.InvNext` | `src/module_at/at_client.c:318-382` | every step of callers, parser and module keeps the invariant of the handshake |
| `CommandRuns.OnlyHolderInstalled` | `src/module_at/at_client.c:335-340` | in every run only the lock holder's response is installed |
| `CommandRuns.EachGetsItsBlock` | `src/module_at/at_client.c:318-382` | in every run the k-th command returns the verdict on the k-th response block and exactly its lines that fit, with any unsolicited lines in between |
| `CommandRuns.ResultByLastLine` | `src/module_at/at_client.c:318-382` | in every run without timeouts a finished command is ok or failed by what the last line of its block says, letter by letter, and by the number of lines stored; and no line before said either, or brought that number |
| `CommandRuns.UrcsDispatched` | `src/module_at/at_client.c:724-731` | in every run each unsolicited line goes to the first matching entry, in order; no line is lost, ignored or in a wrong block |
| `CommandRuns.FullIsForgotten` | `src/module_at/at_client.c:744-773` | in every run a caller that is told never finds the buffer-full status: the last line's status has replaced it |
| `CommandRuns.HasAllLines` | `src/module_at/at_client.c:734-748` | in every run without timeouts a finished command has all lines of its block if and only if these are shorter than its buffer |
| `CommandRuns.SkippedLineToldOk` | `src/module_at/at_client.c:735-773` | a run in which a caller is told success while one line of two is missing from its response |
| `CommandRuns.ClientStepsEnd` | `src/module_at/at_client.c:318-382` | every step of lock holder or parser lowers a rank, so they come to rest when left alone |
| `CommandRuns.AnsweredCommandMoves` | `src/module_at/at_client.c:318-382` | in every run they do not come to rest early: once the module's answer is complete, lock holder or parser can move until the lock is free |
| `CommandTimeouts.ResumesAfterTimeout` | `src/module_at/at_client.c:318-382` | in every run, timeouts included: once the client is quiet, and while nothing more comes of earlier commands and no wait times out, each further command again returns exactly its own block |
| `CommandTimeouts.QuietExactly` | `src/module_at/at_client.c:364-375` | of every state, with the lock free and a command behind it, that keeps what all runs with timeouts keep: whatever steps follow without a timeout, the next command returns its own block if and only if the parser's locals are empty or about to be reset, nobody is told, and no answer is on its way |
| `CommandTimeouts.NotQuietGoesWrong` | `src/module_at/at_client.c:705-707` | from every state that is not so, steps without a timeout that end the next command with a wrong result |
| `CommandTimeouts.TimeoutLeaks` | `src/module_at/at_client.c:364-375` | a run from the start in which a command times out and leaves a state from which, without another timeout, the next command can end with a wrong result |
| `CommandTimeouts.CountThroughNull` | `src/module_at/at_client.c:766-773` | in every run, timeouts included: the parser counts the lines through a null response in exactly those states where it has found the end of a response, the caller has dropped it and no next one has installed its own |
| `CommandTimeouts.CountFindsResponse` | `src/module_at/at_client.c:766-773` | in runs without timeouts it never does |
| `CommandTimeouts.NullReached` | `src/module_at/at_client.c:364-375` | a run from the start in which a wait times out between verdict and count and such a state is reached |
| `LinkedList.List.constructor` | `src/utils/utils_list.c:29-42` | an empty list |
| `LinkedList.List.RPush` | `src/utils/utils_list.c:68-86` | appends the node and keeps head, tail, length and all links |
| `LinkedList.List.LPush` | `src/utils/utils_list.c:135-153` | the same at the head |
| `LinkedList.List.RPop` | `src/utils/utils_list.c:91-108` | takes the last node, or none from an empty list |
| `LinkedList.List.LPop` | `src/utils/utils_list.c:113-130` | takes the first node, or none from an empty list |
| `LinkedList.List.Remove` | `src/utils/utils_list.c:220-232` | takes a node out from anywhere; the node keeps its own links |
| `LinkedList.List.Find` | `src/utils/utils_list.c:158-184` | the first node from the head that matches, or none does |
| `LinkedList.List.NodeAt` | `src/utils/utils_list.c:189-215` | the node at an index; a negative one counts from the tail; none out of range |
| `LinkedList.ListIterator.constructor` | `src/utils/utils_list.c:246-256` | stands on the given node |
| `LinkedList.ListIterator.Next` | `src/utils/utils_list.c:261-268` | gives the node and has already read its link |
| `LinkedList.TraverseFromTail` | `src/data_template/data_template_client_manager.c:246-279` | the loop visits every node present at its start once, from tail to head, whatever each visit pushes at the tail or removes of itself; the list after it is what stayed and what was pushed |
| `LinkedList.FilterSplits` | `src/data_template/data_template_client_manager.c:246-279` | those who stay and those who leave are together those who were there |
| `MessageQueue.InvNext` | `src/data_template/data_template_client.c:46-97` | every step of arrival or delivery keeps the invariant of queue and iterator |
| `MessageQueue.QueueConserves` | `src/data_template/data_template_client.c:46-97` | in every run: messages are handed over in arrival order and once; those gone, then the queue from tail to head, are the arrivals |
| `MessageQueue.NoStaleNode` | `src/data_template/data_template_client.c:46-80` | in every run the iterator gives only nodes that are still in the list |
| `MessageQueue.PassDelivers` | `src/data_template/data_template_client.c:46-80` | a pass that ends has handed over all that had arrived when it began |
| `PendingList.Waiting.constructor` | `src/data_template/data_template_client_manager.c:113-130` | nothing waits |
| `PendingList.Waiting.Add` | `src/data_template/data_template_client_manager.c:317-356` | refused exactly when ten wait, else appended |
| `PendingList.Waiting.TakeToken` | `src/data_template/data_template_client_json.c:264-266` | a document takes the next token of the counter that events share, inside a pass as well |
| `PendingList.Waiting.RunCallback` | `src/data_template/data_template_client.c:184-245` | the callback runs and what it submits is added, or refused, before its node is removed |
| `PendingList.Waiting.HandleNode` | `src/data_template/data_template_client_manager.c:284-304` | a node leaves the list, after its callback, exactly if its deadline is past, for an expiry, or its token is that of the reply, for events with a callback only |
| `PendingList.Waiting.VisitOne` | `src/data_template/data_template_client_manager.c:262-272` | one turn of the live iterator: it has moved on before the node is handled, and stands on the node before, whatever the callback pushed |
| `PendingList.Waiting.Traverse` | `src/data_template/data_template_client_manager.c:246-279` | the loop over the live iterator is one pass of the runs, callbacks submitting on the way, and does what its handler is for: who leaves, by deadline or token, and who is told what |
| `PendingList.PassIsTraversal` | `src/data_template/data_template_event.c:60-112` | such a pass does to the list what the generic traversal with pushes and self removal does |
| `PendingList.PassExact` | `src/data_template/data_template_client_manager.c:465-515` | what a pass takes leaves in order from the tail; those who stay keep their order, and what callbacks submit stands behind them |
| `PendingList.PassDoesIt` | `src/data_template/data_template_client_manager.c:284-304` | by deadline and token: an expiry pass takes exactly the overdue and tells the requests among them TIMEOUT; a reply takes exactly those with its token, events with a callback only, and tells requests ACCEPTED for code 0 and REJECTED for another |
| `PendingList.GoneForGood` | `src/data_template/data_template_client_manager.c:284-304` | in every run, who leaves in a pass does not wait after it |
| `PendingList.Conservation` | `src/data_template/data_template_client_manager.c:317-356` | in every run, callbacks submitting inside a pass included: at most ten wait, and accepted = waiting + answered + timed out |
| `PendingList.ConservationInPass` | `src/data_template/data_template_client_manager.c:246-279` | the same after any turn of a pass |
| `PendingList.LeavesOnce` | `src/data_template/data_template_client_manager.c:284-304` | in every run each accepted request is in exactly one place: waiting, or gone once |
| `PendingList.CallbackOnce` | `src/data_template/data_template_client_manager.c:284-304` | in every run each callback runs at most once |
| `Tokens.TokenFits` | `src/data_template/data_template_client_json.c:264-266` | a token and its NUL fit the 32-byte buffer for every product id of at most ten characters |
| `Tokens.TokenSpelled` | `src/data_template/data_template_client_json.c:105-110` | the token is the product id, a dash and the number, which starts again from zero after 2^32 |
| `Tokens.TokenEqual` | `src/data_template/data_template_client_json.c:264-266` | two tokens are equal if and only if their numbers agree modulo 2^32 |
| `EventTokens.SharedToken` | `src/data_template/data_template_event.c:166-206` | in every run, documents that callbacks build inside a pass included, two pending events share a token if and only if their numbers are a multiple of 2^32 apart |
| `EventTokens.TokensDistinct` | `src/data_template/data_template_event.c:166-206` | pending tokens are distinct while no more than 2^32 tokens are issued in the life of a pending event, reports counted |
| `EventTokens.ReplyReachesOne` | `src/data_template/data_template_event.c:60-112` | then a reply runs at most one callback |

## Left out

- JsonScan.JsonGetValueByName: lookups in which the cursor passes the terminating NUL are excluded, because the code then reads what lies behind the text; `JsonScan.LeavesAtQuote` says which they are.
- JsonToken.LiteJsonValueOf: the same lookups are excluded.
- JsonView.MeasureWellFormed: strings with escaped quotes are excluded, because the scanner ends a string at its first quote, and values whose marks do not match, which it cuts elsewhere.
- JsonToken.DocumentLookup: a string that begins, after spaces, with a brace must not stand where the path needs an object, because the code then looks for members inside the string; without such strings every path will do (`JsonToken.UndisguisedIsStraight`).
- JsonToken.PathExact: the same strings are excluded; `JsonToken.StringTakenForObject` shows what happens on one.
- JsonToken.TwoPartKeyExact: a first value that is such a string is excluded.
- ReportRoundTrip.ReportRestores: floating-point properties and nested objects as properties are not modelled; strings are free of quotes, which the printer does not escape.
- ReportRoundTrip.DeviceProperty.UpdateValueIfKeyMatch: a number out of its type's range is stored modulo the width, where C leaves the result undefined; `0x` without a digit after it reads as zero, where libraries differ.
- SendPath.SentReportRestores: braces in the strings must match, because the far end measures the whole document by them; strings without braces always do. The keys, less their backslashes, are distinct and have no dots.
- ReportBuilder.ConstructReportArray: at most 127 properties, because the loop index is an 8-bit signed integer; where nothing bounds the prints the memory must hold them; formatted printing is taken to accept every size, as in C99.
- TemplateDocument.SetTemplateJsonType: where the size is no bound the memory must hold the longer document.
- AtStrings.AtStrip: an empty text is excluded, because the code's end pointer then lies before the buffer.
- AtScan.AtSscanf: the conversions %c, %o, %x, %d, %i, %p, %n and the qualifiers are not modelled; no caller in the core uses them.
- TopicMatch.IsTopicMatched: an empty topic name with a filter that begins with `+` is excluded, because the final test then reads before the name.
- TopicMatch.MatcherExactly: the rule on topics that start with `$` (section 4.7.2 of MQTT 3.1.1) is not applied by the code and not stated.
- Subscriptions.Subscriber.DeliverMessage: only lines with all three arguments, none empty, that fit the local buffers; on other lines the code goes on after its log message, and `at_strip` writes before an empty text or the parser past a buffer.
- Subscriptions.Subscriber.RegisterSubTopic: allocation always succeeds and topics are immutable; the size of the allocated copy is not modelled.
- ReplaceSubstr.LiteReplaceSubstr: a text with the key stays below the 512 bytes of `tmp` and the caller's buffer before and after, and the key is not empty.
- RingInterleaving.InvNext: the sticky `full` flag is not part of the interleaved model; the stores of a point and of a byte are single steps.
- LineFraming.Receiver.ReadLine: the bytes a flush removes from the ring are not among its events; `ReceivePath` has the flush among its steps.
- ReceivePath.LinesAreReceived: table and end sign stay the same in a run.
- ResponseStore.Parser.HandleLine: holds for the parser's locals as a run without timeouts leaves them; the embedding of several callers is in `CommandRuns`.
- CommandRuns.EachGetsItsBlock: runs without timeouts; those with timeouts are in `CommandTimeouts`. The module answers the commands in order, stops at the end of a response and sends no other lines than unsolicited ones in between; `at_client_wait_connect` and commands without a response object are not modelled.
- CommandTimeouts.ResumesAfterTimeout: a run ends where the parser would write through a null response, because the code's behaviour is then undefined; handling a line, up to its verdict, is one step.
- CommandTimeouts.QuietExactly: the module is taken to send nothing more for the commands that have given up; the table takes no line "OK".
- PendingList.Waiting.Traverse: what a callback will submit is recorded with its request, as the runs are over every such choice; the clock does not wrap during a pass.
- PendingList.Waiting.Add: a token fits the request's token field; the code stores a longer one without its NUL. The mutex is taken to be recursive, as submissions inside a pass lock it again.
- MessageQueue.QueueConserves: each list operation is one step, although the code holds no lock around it; callbacks that re-enter the delivery loop are not modelled; messages are values, so copying and freeing them is not.
- Allocation failure, freeing, heap sizes, logging, UART, GPIO and mutex ports: foreign to the properties. The lock is an atomic action, the interrupt a step.
- The waiting loops of the `_Sync` functions and `IOT_Template_Yield`, and callbacks that call it: they depend on user callbacks.
- `parse_*` readers, `LITE_json_keys_of`, hex conversion, flag helpers, `module_mqtt_*` wrappers, Wi-Fi and network registration, samples and `tools/codegen.py`: they would add only easy members.
