# GmBot digest core in Dafny

GmBot is a chat bot that posts a crypto market digest to a fixed list of
chat groups twice on a schedule. The morning digest has:

- a greeting;
- the BTC, ETH and SOL prices sorted by 24-hour change;
- the Fear & Greed index with a coloured bucket;
- a date stamp;
- when a new one is available, a quote of the day. A log file of hashes
  keeps the quote from repeating.

The evening digest has the same price and index lines and ends with an
attribution. The bot also answers `!groupid` in a chat with that chat's
identifier.

This project models that core as pure functions and proves its properties.
The modules follow the program's structure:

| module | models |
|---|---|
| `Wrappers` | `Option` |
| `Text` | what the program does with strings: `split`, `join`, `filter(Boolean)`, `trim`, `toLowerCase`, `includes` |
| `Numeral` | `toFixed(2)` on amounts held as whole hundredths |
| `Base64` | `Buffer.from(text).toString('base64')`: UTF-8 followed by base64 |
| `Market` | the price fetch with its all-zero fallback, the three coins, and the stable sort by change, highest first |
| `Digest` | the digest composer shared by the morning and evening jobs |
| `QuoteLog` | quote selection against the hash log |
| `Command` | the `messages.upsert` handler |
| `Bot` | the two scheduled jobs end to end: fetch, compose, then send to each group in turn |

Everything outside the program is a parameter:

- the price snapshot, or `None` when the request failed;
- the index, or `None`;
- the fetched quote, or `None`;
- the log file's text, or `None` when the file does not exist;
- the formatted date;
- for each send, whether it succeeds.

What the code does around the fetches and sends:

- Prices and the index are fetched afresh on every tick; nothing is cached
  between ticks.
- A failed price fetch always gives the all-zero snapshot.
- The groups are sent to in one loop inside one `try`: the first send that
  fails ends the job, and the remaining groups get nothing (`Bot.Broadcast`).
- A closed connection is retried after a fixed 10 seconds, with no backoff
  and no limit on attempts.

Some JavaScript truthiness is part of the behaviour, and the model keeps it:

- An empty index classification reads `Neutral`.
- An empty quote text adds no quote section.
- An empty author reads `Unknown`.
- An empty plain-text message falls back to its extended text.

One consequence of the log's `filter(Boolean)`: an empty quote body hashes
to the empty string, and reading the log drops that string again. So an
empty quote is never recognised as already used
(`QuoteLog.EmptyQuoteNeverRejected`).

## Model

| member | source | states |
|---|---|---|
| Market.FetchPrices | GmBot.js:38-45 | a failed price request yields price 0 and change 0 for all three coins instead of an error; a successful one is used as it is |
| Market.Listing | GmBot.js:137-141 | the digest starts from exactly three coins, listed BTC, ETH, SOL, each carrying the snapshot's price and change for that coin |
| Market.Insert | GmBot.js:142 | inserting a coin into a list sorted highest change first keeps it sorted and adds exactly that coin |
| Market.SortByChange | GmBot.js:142 | the sorted coins are ordered by change, highest first, and are a permutation of the input |
| Market.SortKeepsTies | GmBot.js:142 | the sort is stable: for every change value, the coins with that change keep their input order |
| Market.SortKeepsTiesRanked | GmBot.js:137-142 | after sorting the listing, coins of equal change still appear in BTC, ETH, SOL order |
| Market.EqualChangesKeepOrder | GmBot.js:142 | when all changes are equal, sorting leaves the list unchanged |
| Market.TiesMembers | GmBot.js:142 | the tie group for a change value holds exactly the coins with that change |
| Digest.SentimentValue | GmBot.js:126 | a present index shows exactly its value followed by `%`, one character longer than the value; "N/A" is shown exactly when the index is missing |
| Digest.SentimentLabel | GmBot.js:127 | the label is the index's classification when there is one and it is non-empty, and "Neutral" otherwise; it is never empty |
| Digest.MoodPrecedence | GmBot.js:128 | `MoodOf` is green exactly when "Greed" occurs in the classification, red exactly when "Fear" occurs and "Greed" does not, white exactly when neither occurs |
| Digest.GreedIsGreen | GmBot.js:128 | the index's classifications "Greed" and "Extreme Greed" are green |
| Digest.FearIsRed | GmBot.js:128 | the index's classifications "Fear" and "Extreme Fear" are red |
| Digest.NeutralIsWhite | GmBot.js:127-128 | "Neutral", the missing-index default, is white |
| Digest.LineFor | GmBot.js:145-146 | the arrow points up exactly when the change is zero or more, and the percent shown is the size of the change without its sign |
| Digest.LinesFor | GmBot.js:144-148 | one line per coin, in the coins' order |
| Digest.CoinLinesOrder | GmBot.js:137-148 | three lines, ordered by change highest first; they hold the same coins as the listing, each with the snapshot's price and change for it; equal changes stay in BTC, ETH, SOL order; each arrow and percent is as in LineFor |
| Digest.Build | GmBot.js:126-155 | the digest has the sorted coin lines; its sentiment is the index value and its bucket is the one for the label; it carries the quote exactly when the morning variant has a non-empty quote; the evening digest always ends with the attribution; a missing index reads "N/A" and white |
| Digest.RenderLine | GmBot.js:147 | a coin line starts with the coin's emoji, its name, `: $` and the two-decimal price, and ends with the unsigned two-decimal percent |
| Digest.LineArrow | GmBot.js:147 | a coin line shows the up glyph exactly when its arrow is up, and the down glyph exactly when it is down |
| Digest.RenderLines | GmBot.js:144-148 | one rendered line per coin line, in order |
| Digest.Render | GmBot.js:150-155 | the text starts with the variant's greeting and ends with its trailer |
| Digest.RenderLayout | GmBot.js:150-153 | split into lines, the text is the title, a blank line, the coin lines in the digest's order, a blank line, then the sentiment line |
| Digest.ThreeLinesShown | GmBot.js:150-152 | a digest's three coin lines are the text's third to fifth lines |
| Digest.Compose | GmBot.js:150-155 | the morning text starts with the morning greeting; it ends with the quote under its header when a non-empty quote is given, otherwise with the date stamp; the evening text starts with the evening greeting and ends with the attribution |
| Digest.QuoteSectionOfRender | GmBot.js:150-155 | the text contains the quote header exactly when the trailer carries a quote |
| Digest.MorningQuoteSection | GmBot.js:155 | the morning text contains the quote section exactly when a non-empty quote is given |
| Digest.EveningHasNoQuote | GmBot.js:190-194 | the evening text never contains a quote section |
| Numeral.Digits | GmBot.js:147 | the integer part is a non-empty run of decimal digits with no leading zero |
| Numeral.ValueOfDigits | GmBot.js:147 | reading the written digits back gives the number |
| Numeral.Fixed2 | GmBot.js:146-147 | the rendering has exactly two digits after the point; a minus sign appears exactly for negative amounts; the integer part has no leading zero (a lone `0` before the point is allowed) |
| Numeral.FixedRoundTrip | GmBot.js:146-147 | reading a two-decimal rendering back gives the amount, so distinct amounts render differently |
| Base64.Utf8 | GmBot.js:69 | each character takes one to four bytes |
| Base64.Encode | GmBot.js:69 | the encoding has 4 characters per started group of 3 bytes, all drawn from the base64 alphabet |
| Base64.Hash | GmBot.js:69 | a quote's hash contains no line break and is empty exactly when the quote is empty |
| QuoteLog.FormatQuote | GmBot.js:66-67 | the formatted quote starts with the body between underscores and a line break, and ends with `— *author*`, where a missing author reads "Unknown"; nothing else lies between, as the length is that of the two parts |
| QuoteLog.Parse | GmBot.js:70-74 | every entry read back from the file is non-empty and on one line |
| QuoteLog.ParseSerialise | GmBot.js:73-79 | a log of well-formed entries, once written by `Serialise`, reads back through `Parse` as the same log |
| QuoteLog.AppendRoundTrip | GmBot.js:78-79 | writing the log with one more hash reads back as the old log plus that hash (an empty hash is dropped) |
| QuoteLog.JoinSnoc | GmBot.js:79 | joining one more entry appends a newline and that entry |
| QuoteLog.SelectQuote | GmBot.js:62-85 | a failed fetch or an already-logged hash yields no quote and leaves the file alone; otherwise the formatted quote is returned and the file becomes the log plus the new hash |
| QuoteLog.SelectionAppends | GmBot.js:76-79 | the log only grows: a rejected selection leaves it as read, and an accepted one adds exactly the new hash |
| QuoteLog.SecondOfferRejected | GmBot.js:76 | the same non-empty quote offered twice is rejected the second time |
| QuoteLog.EmptyQuoteNeverRejected | GmBot.js:69-76 | an empty quote is accepted whatever the log holds |
| QuoteLog.RunLogsSent | GmBot.js:62-85 | over any sequence of selections, the starting log stays a prefix of the final log; every non-empty quote sent was absent from the starting log and is in the final one |
| QuoteLog.RunNeverRepeats | GmBot.js:62-85 | over any sequence of selections, no non-empty quote is sent twice |
| Text.Split | GmBot.js:73 | splitting gives at least one piece and no piece contains the separator |
| Text.JoinSplit | GmBot.js:73-79 | joining the pieces of a split gives the text back |
| Text.SplitJoin | GmBot.js:73-79 | splitting a join of separator-free pieces (at least one) gives the pieces back |
| Text.SplitAround | GmBot.js:73 | splitting around one separator is splitting each side |
| Text.SplitLayout | GmBot.js:150-153 | splitting a line, a blank line, joined pieces, a blank line and a further line gives them back piece by piece |
| Text.DropEmpty | GmBot.js:73 | `filter(Boolean)` keeps exactly the non-empty pieces, in order |
| Text.DropEmptyAppend | GmBot.js:73 | filtering distributes over concatenation |
| Text.NotInJoin | GmBot.js:79 | a character in neither the pieces nor the separator is not in the join |
| Text.ContainsIffOccurs | GmBot.js:128 | `includes` holds exactly when the word occurs at some position |
| Text.Trim | GmBot.js:112 | the trimmed text is no longer and neither starts nor ends with white space |
| Text.TrimWindow | GmBot.js:112 | the text is white space, then the trimmed text, then white space |
| Text.TrimFramed | GmBot.js:112 | trimming a word framed by white space gives the word, if the word does not start or end with white space |
| Text.Lower | GmBot.js:112 | lower-casing keeps the length and maps each character on its own |
| Command.TextOf | GmBot.js:111 | the text read is the plain text when it is non-empty; otherwise the extended text when there is one; otherwise empty |
| Command.CommandIsFramedToken | GmBot.js:112 | a text for which `IsGroupIdCommand` holds (one that triggers the reply) is `!groupid`, in any letter case, with white space around it |
| Command.FramedTokenIsCommand | GmBot.js:112 | every such framed text triggers the reply |
| Command.OnUpsert | GmBot.js:104-116 | a reply is sent exactly for a `notify` event whose first message has content with the command text; the reply goes to that message's chat and ends with its identifier |
| Bot.BroadcastPrefix | GmBot.js:157-159 | `Broadcast` delivers the digest, to the first groups in order, and each of those sends succeeded; delivery stops only after the last group or at the first failed send |
| Bot.BroadcastReaches | GmBot.js:157-159 | a group whose send and every earlier send succeed receives the digest |
| Bot.BroadcastReachesAll | GmBot.js:157-159 | every group gets the digest exactly when every send succeeds |
| Bot.MorningTick | GmBot.js:121-159 | the morning job's text is the morning digest of the snapshot after the fallback, carrying the quote the selection chose, and starts with the greeting; the log it leaves is the quote selection's; what it sends is the broadcast of its text |
| Bot.MorningEnds | GmBot.js:124-155 | the morning text ends with the chosen quote under its header, or with the date stamp when no quote was chosen |
| Bot.EveningTick | GmBot.js:169-198 | the evening text is the evening digest of the snapshot after the fallback, starting with the evening greeting and ending with the attribution; it is delivered as the broadcast describes; the quote log is untouched |
| Bot.QuoteSpentWhateverDelivery | GmBot.js:124-159 | a quote is logged before any send: the log written does not depend on delivery, and a fresh quote's hash is in it even when nothing is sent |
| Bot.SecondTick | GmBot.js:76-155 | a morning whose quote is already logged ends with its date stamp, has no quote section and leaves the log as it was |
| Bot.RepeatedQuoteDropped | GmBot.js:124-155 | of two mornings offered the same non-empty quote, the second ends with its date stamp, has no quote section and leaves the log as the first left it |
| Bot.FallbackLines | GmBot.js:38-45 | when the price request fails, the lines are BTC, ETH, SOL, each at 0 with the up arrow and a 0 change |
| Bot.FallbackMessage | GmBot.js:40-44 | when the price request fails, the message's third to fifth lines read `💹 BTC: $0.00 🔼 0.00%`, then the same for ETH and SOL |
| Bot.EqualChangesListed | GmBot.js:137-148 | coins whose changes are all equal are listed BTC, ETH, SOL |
| Bot.ExampleOrder | GmBot.js:142-148 | BTC up 5%, ETH down 2% and SOL up 1% are listed BTC, SOL, ETH |

## Left out

- Network requests (CoinGecko, alternative.me, favqs.com) are not modelled. Their results are parameters, and a failure is `None`.
- Reading and writing the quote log file is not modelled. The file's text is a parameter, and the text to write is a result.
- The cron schedule is not modelled. The code's comments name 9:00 and 18:30, but both jobs are scheduled every two minutes.
- The messaging session is not modelled: Baileys, the QR code, credential saving and the connection-update handler. This includes the reconnect after a close, a fixed 10-second `setTimeout` with no backoff.
- The Express liveness endpoint is not modelled.
- Console logging is not modelled.
- `toLocaleDateString('en-IN', …)` is not modelled: locale formatting is external, so the date text is a parameter.
- Amounts are whole hundredths, not floating point. `toFixed(2)` rounding of a float, `NaN` and `undefined` fields, and exponent notation for values of 1e21 and over are not modelled.
- Bot.Broadcast: the send loop is an all-or-prefix outcome per send. Message ids and the time taken by sends are not modelled.
- Text.Lower: lower-cases ASCII `A`–`Z` only, while JavaScript's `toLowerCase` covers all of Unicode. Characters outside ASCII are left as they are.
- Digest.MorningQuoteSection: requires that the date stamp and the index value do not contain the quote section's balloon emoji. Otherwise the quote header could be spelled out by those texts, and the "only if" direction would not hold.
- Digest.EveningHasNoQuote: requires that the index value does not contain the balloon emoji, for the same reason.
- Bot.RepeatedQuoteDropped: requires a balloon-free date stamp and index value for the second morning, for the same reason.
- Bot.SecondTick: requires a balloon-free date stamp and index value, for the same reason.
- Digest.QuoteSectionOfRender: requires that nothing before the trailer and no date stamp contains the balloon emoji, for the same reason.
- Digest.RenderLayout: requires at least one coin line, as every built digest has three. An empty `join` would render like a single empty line. The sentiment line is stated whole only when the index value holds no line break.
- Repeated job registration is not modelled. Each reconnect calls `startBot` again (GmBot.js:99), and every call registers both cron jobs once more (GmBot.js:120, 168). After k reconnects each tick runs k+1 copies of each job, and the older copies send on dead sockets. Such a copy still selects, and so spends, a quote before its send fails (Bot.QuoteSpentWhateverDelivery). The de-duplication still holds across the copies: between reading the log and writing it (GmBot.js:72-79) there is no `await`, so the selections run one after another. That is the sequence QuoteLog.RunNeverRepeats covers.
