# Nexus-Erebus agent: a model of its core, with proofs

The agent takes chat commands, trades on Solana for its users, keeps their settings and encrypted
wallets in Redis, issues session tokens, and shields itself with a "bubble firewall". This project
models the parts of it that carry state, interleaving, text rewriting or exact arithmetic, and proves
what they keep over every input and every run.

| file | what it models |
|---|---|
| `Text`, `Regex`, `Json`, `Codec`, `Stringify` | the language the agent leans on: strings, backtracking regular expressions, strict JSON (sections 2 to 7 of RFC 8259), UTF-8, base64 and base64url (sections 4 and 5 of RFC 4648), decimal and JSON printing |
| `Commands` | the command patterns of `commands.js` and the order in which they are tried |
| `Settings`, `Chain` | scanners for the `auto` and `risk` patterns, and the whole chain in terms of words and scanners |
| `Preferences` | the messages that change `auto` and `risk`, and what they set |
| `JsonRepair` | extraction and trailing-comma repair of a model's reply in `utils-launcher.js` |
| `Token` | the session tokens of `api-server.js` (section 7.1 of RFC 7515, section 4.1.4 of RFC 7519) |
| `UserDb`, `Hydration` | the user store of `db.js` and start-up in `commands.js` |
| `Restart` | what a restart finds of what was persisted |
| `WriteBehind` | in-memory user records of `commands.js` written behind to Redis, with the trade worker writing the same rows |
| `TradeJob` | the job of `worker.js` over a network that loses and half-loses sends, with `retry.js` |
| `AutoTrade` | the loop of deposit notices, auto-trade decisions and jobs |
| `Firewall`, `Captcha`, `QuoteCache`, `Memory` | the firewall, and the Redis-backed counters, keys, quotes and conversation streams |
| `Portfolio` | balances per mint, cents and totals |

How things outside are represented: Redis is a map whose keys have deadlines; a key is there strictly
before its deadline. The chain is a ledger keyed by signature. Clocks, schedules, feeds, random IVs,
AES-GCM, HMAC and HKDF are parameters; the last three come with their ideal laws as preconditions: what was sealed
opens, and different keys or messages have different tags, different days different keys.
A step runs from one `await` to the next.

Where the code and what is said about it differ, the code is modelled:

- Tokens are described as valid for two hours (`README.md:219`), but they are signed with the key of the day of issue and
  checked with the key of the day of expiry. `Token.TokenRoundTripIff` gives the exact condition.
- `worker.js:44` reads `data.wallet`, which `db.js:97` has deleted. The job takes the key lookup as a
  step that may fail; `TradeJob.AsWrittenNothingIsSent` shows what the code as written does.
- The trailing-comma repair also rewrites string contents. `JsonRepair.RepairPreservesMeaningIff` gives
  the exact condition, `JsonRepair.CommaInStringIsLost` a reply that is misread.
- The firewall exits after a publish, not when HP reaches zero. `Firewall.LatePublishEscapes` shows a
  process that lives on when a publish is slower than the heal interval; `Firewall.ZeroIsFinalIff` says exactly
  which runs stay at zero: those in which no tick is quiet before the exit.
- `remember` adds an entry and only then renews the stream, and the calls of one handle may overlap.
  `Memory.RecallIsWindow` says which entries are live for every interleaving, `Memory.OverlapLosesBoth` shows two
  calls that lose both their entries, and `Memory.GoneIff` says when a single call loses its own.
- `AUTO_RX` ignores case, but `commands.js:352` compares its capture with `on` as written.
  `Preferences.AutoObeyedIff` gives the exact condition under which a message sets what it asks for;
  `Preferences.CapitalOnSwitchesOff` is the message `auto ON`. Risk levels are likewise stored as typed
  and then reported by their lower-case names: `Preferences.RiskReportedIff`, and
  `Preferences.CapitalHighIsBalanced` is the message `risk HIGH`.
- A balance is read before an `await` and assigned after it, so the auto-trade test can see an old one.
  `AutoTrade.StaleAnswerEnqueues` shows a trade enqueued with chain and memory low; `AutoTrade.CanEnqueueIff`
  says exactly from which states an automatic trade can still be enqueued.
- `setEx` at `utils-solana.js:63` is read as SETEX; the unbound `handle` at `commands.js:354` as `m.handle`.
- `persist` never stores a wallet, so nothing is claimed about wallets made by `ensure` after a restart.
- The migration branch at `commands.js:107-110` cannot be reached: a secret never comes with a legacy text.

## Model

| member | source | states |
|---|---|---|
| Commands.TailOutcomes | commands.js:33-34 | after the keyword, the first match the backtracking engine finds for spaces, mint, spaces, amount is what a scanner reads that never backs up |
| Commands.ScannerRefinesPattern | commands.js:33-34 | on every text the leftmost greedy scanner returns exactly the captures of the buy and sell patterns, and so do the patterns without their slash alternatives |
| Commands.TradesComeFirst | commands.js:316-319 | for every text, once mentions are removed, a buy that the scanner finds wins over everything, a sell over everything but a buy, and without either neither is taken |
| Commands.MentionsRemoved | commands.js:44-46 | for every text, what is left is the texts between the mentions found from left to right in any case, all of them, in order, with only the two ends trimmed; without a handle the text itself |
| Commands.PrintedIsClean | commands.js:44-46 | removing mentions and trimming leaves a printed command as it is, for every configured handle |
| Commands.NoBuyInSell | commands.js:33-34 | no position of a printed sell starts a buy, whatever mint and amount it names |
| Commands.CommandRoundTrip | commands.js:315-327 | printing a buy or sell with any mint of 32 to 44 alphanumerics and any digit/dot amount and going through the whole chain gives back side, mint and amount text |
| Chain.DepositIff | commands.js:35-35 | the pattern matches if and only if `deposit` or `wallet`, in any case, stands in the text between word boundaries |
| Chain.BalanceIff | commands.js:36-36 | the same for `balance` |
| Chain.PortfolioIff | commands.js:37-37 | the same for `holdings`, `portfolio` and `how much i hold` |
| Chain.PriceIff | commands.js:38-38 | the same for `sol price`, `solana price` and `price of solana` |
| Settings.ScannerReadsSettings | commands.js:39-40 | on every text a scanner that takes white space whole and never backs up reads exactly what the leftmost match of the `auto` and of the `risk` pattern captures |
| Chain.ChainByWords | commands.js:315-327 | on every text the chain gives the command its words ask for: a buy or sell where the scanner reads one, then the first of those four groups of which a word stands alone, then the risk level or state the settings scanners read |
| Preferences.SettingsDecide | commands.js:318-327 | for every text, the settings or no command come out if and only if no trade is scanned and no word of the four groups stands alone, and then the settings scanners decide |
| Preferences.AutoRoundTrip | commands.js:325-325 | `auto` or `autotrade`, any white space or none, and `on` or `off`, all in any case, go through the whole chain to `auto` with the last word as typed |
| Preferences.RiskRoundTrip | commands.js:326-326 | `risk`, any white space or none, and a level, all in any case, go through the whole chain to `risk` with the level as typed |
| Preferences.RiskWinsOverAuto | commands.js:325-326 | for every text, wherever the two stand in it, a risk level that is read keeps a state from being set |
| Preferences.SettingsCapture | commands.js:39-40 | whatever the message, a setting it reaches carries what its scanner read, which is one of its own words in some case |
| Preferences.AutoObeyedIff | commands.js:351-352 | for every message that reaches `auto`, the record says on if and only if the first state in the text is lower-case `on`; it says what was asked for if and only if that, or any spelling of `off`, was typed |
| Preferences.CapitalOnSwitchesOff | commands.js:352-352 | `auto ON` switches auto-trading off |
| Preferences.RiskReportedIff | commands.js:218-230 | the first level in the text is stored as typed, and reported as its lower-case form would be if and only if it is `low` or `high` in lower case or any spelling of `med`; it is reported conservative if and only if lower-case `low` was read, aggressive if and only if lower-case `high` was, and balanced otherwise |
| Preferences.CapitalHighIsBalanced | commands.js:218-218 | `risk HIGH` is taken, stored and reported as balanced |
| Json.ParsePrint | utils-launcher.js:143-143 | strict JSON parsing reads every strict document, with any white space and escapes, back to the tree it means |
| Json.ParsedIsDocument | utils-launcher.js:141-145 | whatever the parser reads is a strict document in white space, printed, and the tree read is the one it means |
| Json.ParseIff | utils-launcher.js:141-145 | the parser reads a tree from a text if and only if the text is a strict document that means it |
| JsonRepair.RepairIsDrop | utils-launcher.js:138-139 | the two global regex replaces are two passes that drop a comma followed by white space and the closer |
| JsonRepair.DropPrinted | utils-launcher.js:138-139 | a pass over a printed document is the printed document without its trailing commas before that closer and with every string body passed over |
| JsonRepair.DropChangesIff | utils-launcher.js:138-139 | a pass changes a text if and only if the text contains comma, white space, closer |
| JsonRepair.LexKeptIff | utils-launcher.js:138-139 | a string body still decodes after both passes, and to the same string if and only if it contained neither pattern |
| JsonRepair.SliceIsDocument | utils-launcher.js:133-138 | the slice from first to last brace of the trimmed reply is the document, in prose without an opening brace before and a closing one after it |
| JsonRepair.NoObjectIff | utils-launcher.js:132-136 | a reply is turned away unread if and only if it has no opening or no closing brace |
| JsonRepair.RepairPrinted | utils-launcher.js:138-139 | repairing a printed document prints the repaired document |
| JsonRepair.ExtractGives | utils-launcher.js:133-146 | for every object document, trailing commas or not, extraction succeeds and yields the meaning of the repaired document |
| JsonRepair.RepairPreservesMeaningIff | utils-launcher.js:133-146 | extraction yields the tree that was written if and only if no string or label in it contains a comma, white space, closer pattern |
| JsonRepair.CommaInStringIsLost | utils-launcher.js:138-143 | the reply `{"a":",}"}` is valid JSON and is read with its string shortened |
| Codec.ValueOfDecimal | api-server.js:219-219 | decimal text reads back to its number |
| Codec.DecimalInjective | api-server.js:219-219 | different day numbers have different texts |
| Codec.TextRoundTrip | api-server.js:255-255 | UTF-8 decoding undoes encoding for every text |
| Codec.Base64RoundTrip | db.js:34-38 | decoding undoes both base64 and base64url, for byte strings of every length |
| Codec.Base64UrlInjective | api-server.js:238-241 | different byte strings have different base64url texts |
| Codec.Base64UrlShape | api-server.js:243-243 | base64url text has no dot, and is empty only for no bytes |
| Stringify.EscapeRoundTrip | api-server.js:231-235 | a JSON-escaped string is a well-formed string body that decodes to the original |
| Stringify.BytesRoundTrip | db.js:77-79 | the JSON text of a byte array parses back to those bytes, for every length |
| Token.ClaimsReadBack | api-server.js:230-236 | decoding and parsing the payload of a signed token gives its expiry and subject |
| Token.SameDayIff | api-server.js:239-239 | issue and expiry fall on the same day if and only if issued before 22:00 UTC |
| Token.TokenRoundTripIff | api-server.js:228-274 | a token verifies to its subject if and only if at most two hours have passed since the second of issue and it was issued before second 79200 of the day; otherwise it is an error |
| Token.VerifiedIff | api-server.js:250-274 | any text at all verifies to a subject if and only if its second part carries that subject and an expiry not over, and its third part is the tag of header, dot and second part under the key of the day of expiry |
| Token.ClaimsIff | api-server.js:255-256 | a payload makes a claim if and only if it decodes to an object whose last `exp` is a natural number other than zero and whose last `sub` is a string that is not empty, and then exactly those |
| Token.TamperedIsError | api-server.js:261-267 | a tag made for one payload, under any key, verifies no other payload at any time, whatever that payload claims |
| Token.SwappedPayloadIsError | api-server.js:228-267 | a token handed out is header, payload and tag, and with any other payload in place of its own it is an error at every time |
| Token.HeaderReadsBack | api-server.js:209-211 | the header decodes to the HS256 header object |
| Token.LateTokenNeverVerifies | api-server.js:250-274 | a token issued at 22:00 UTC verifies at no time at all |
| Token.HandleRoundTripIff | api-server.js:298-299 | every handle the schema lets through comes back lower-cased on that same condition |
| UserDb.DecryptEncrypt | db.js:29-45 | the stored text is IV, tag and ciphertext in base64, and the 12/16/rest framing gives back the plaintext of any length |
| UserDb.Db.UpsertUser | db.js:53-69 | the handle is listed, the given fields are merged into its row and nothing else changes, with a plaintext wallet replaced by its encryption; the caller's object is left with that wallet and without its chat id |
| UserDb.Db.SetWalletSecret | db.js:75-87 | the handle is listed, its wallet field becomes the encrypted byte-array text, nothing else changes |
| UserDb.Db.GetUser | db.js:92-99 | every field but the wallet, or nothing for an empty row |
| UserDb.CompatOf | db.js:123-139 | never both a secret and a legacy text; throws exactly for a wallet that does not decrypt and parse; otherwise the secret is that of `getWalletSecret` and a legacy text is the stored field |
| UserDb.StepReads | db.js:53-114 | one write changes what reading a wallet gives exactly as its own wallet field says, and only for its handle |
| UserDb.LastWalletWins | db.js:53-114 | after any sequence of writes, reading a wallet gives the last one written for that handle, or what was there before if none was |
| UserDb.SecretRoundTrip | db.js:75-114 | bytes written last, by either way of writing, are the bytes read |
| UserDb.SealedAtRest | db.js:53-87 | after any sequence of writes, by either call, no wallet is stored in plaintext: the field is empty or starts with `enc:` |
| UserDb.LastFieldWins | db.js:53-87 | after any sequence of writes every field but the wallet holds the last value given for it, or what was there before, and a handle is listed if and only if it was or something was written for it |
| Hydration.InitializeUsers | commands.js:91-125 | throws exactly if some listed wallet does not decrypt and parse or is no keypair; otherwise loads exactly the listed handles with a non-empty row and a 64-byte secret, with the stored settings, and writes nothing |
| WriteBehind.StepKeeps | commands.js:128-178 | every step keeps, for every handle: snapshots asked for are those stored and then those under way, the newest is in memory, the row shows the preferences of the newest stored |
| WriteBehind.MemoryIsLastTold | commands.js:152-178 | over every run a user is in memory if and only if they were or were ensured, the SOL balance is the last one a refresh or wallet callback brought, the token balance the last one a refresh or token callback brought, the risk the last level set, and auto the last state set flipped once per later toggle; before any of these they are as at the start, or 0, 0, off and `med` |
| WriteBehind.QuietRowsAgree | commands.js:219-230 | over every interleaving, with no persist for a user under way the stored `auto` and `risk` equal memory whatever the worker wrote, and the whole row does if the worker wrote nothing there |
| WriteBehind.RowsNeverGoBack | db.js:67-68 | over every interleaving the snapshots that reached a row are a growing prefix of those persisted, and the row shows the settings of the last of them, and all of it if the worker stays away |
| Restart.WriteIsUpsert | db.js:67-68 | SADD and then HSET of fields without a wallet are what `upsertUser` does with them |
| Restart.RunMirrors | commands.js:142-149 | over every interleaving the stored row of a user shows, as printed, the record last written, and its handle is listed |
| Restart.RestartKeepsSettings | commands.js:91-119 | after any run that ends with no persist for a user under way, a restart finds the handle listed, its wallet as it was, and loads the `auto` and `risk` that were in memory, and the balances too if the worker stayed away |
| Restart.DefaultsAgree | commands.js:113-118 | start-up takes a missing field to be what `ensureUser` gives a new user |
| WriteBehind.Agent.Persist | commands.js:142-149 | the snapshot is taken at the call and its SADD sent at once |
| WriteBehind.Agent.EnsureUser | commands.js:152-160 | takes the `Ensure` step and returns the record in memory |
| WriteBehind.Agent.ToggleAuto | commands.js:219-224 | takes the `Toggle` step, throws for an unknown handle, and reports the settings now in memory |
| WriteBehind.Agent.SetUserRisk | commands.js:225-230 | takes the `SetRisk` step, throws for an unknown handle, and reports the settings now in memory |
| WriteBehind.Agent.BalancesArrive | commands.js:171-178 | takes the refresh or callback step; a known user then has in memory exactly the balances the chain answered with |
| WriteBehind.Agent.RedisServes | db.js:67-68 | Redis takes the oldest command of the connection |
| WriteBehind.Agent.ReplyDelivered | db.js:67-68 | the oldest SADD reply lets its call send HSET |
| TradeJob.SameTxOnce | utils-solana.js:130-135 | one signed transaction, sent any number of times on any schedule, lands at most once, and exactly once on normal return |
| TradeJob.FreshTxBounds | utils-solana.js:75-95 | a new transaction per attempt lands at most once per attempt, and at least once on normal return |
| TradeJob.DeliveryBounds | utils-solana.js:69-149 | for every schedule `transfer` debits at most once, exactly once on normal return; `executeSwap` with a route lands 1 to 3 times on normal return and 0 to 3 on throw |
| TradeJob.SwapBoundsAreTight | utils-solana.js:75-95 | every number of landings within those bounds happens on some schedule |
| TradeJob.BurnAndDevEffect | utils-solana.js:152-157 | only the amount times the fraction, rounded down, is ever burned and only the rest ever goes to dev, each at most once, on success or not; on success each has landed exactly once and the two add up to the amount; for fractions in [0, 1] no failure takes more than the amount |
| TradeJob.FuelStageSettles | worker.js:48-53 | the fuel stage sends no trade; if it succeeds there was a route, the fuel swap returned, and the rounded-down share of the fuel was burned once and the rest paid to dev once |
| TradeJob.TradeJobSafe | worker.js:37-75 | under every schedule no trade swap is sent unless the fuel was settled before it, and no run takes more NXR than the fuel bought |
| TradeJob.JobFinishes | worker.js:37-75 | under every schedule balances are stored if and only if the job succeeds, once and as its last event; on success with a route the trade landed one to three times and its helper returned before that; it never lands more than three times, and without a route never |
| TradeJob.CalmJob | worker.js:37-75 | with a key, both routes and every attempt confirmed the job succeeds with exactly these events: fuel swap, burn of the rounded-down share, the rest to dev, trade, each sent and landed once in that order, and the balances stored |
| TradeJob.AsWrittenNothingIsSent | worker.js:41-45 | with the key taken from what `getUser` returns, the job stops before it sends anything |
| TradeJob.SleptClosedForm | retry.js:12-12 | n failures cost 800 (2^n - 1) milliseconds of sleep |
| TradeJob.Worker.Send | utils-solana.js:88-92 | one attempt on the ledger: a signature enters it only once |
| TradeJob.Worker.WithRetry | retry.js:2-15 | the loop does what the recursive retry does: same events, same result, same attempts, and sleeps after every failure |
| TradeJob.Worker.ExecuteSwap | utils-solana.js:69-108 | without a route it returns at once; otherwise each attempt signs anew |
| TradeJob.Worker.SendTransfer | utils-solana.js:111-149 | failed reads stop it before signing; otherwise one signed transaction is retried |
| TradeJob.Worker.BurnThenDev | utils-solana.js:152-157 | burn first, the rest to dev only if the burn returned; on success exactly one burn of the rounded-down share and one dev fee of the rest have been added to the log |
| TradeJob.Worker.RunJob | worker.js:37-75 | the imperative job has exactly the events and result of the job of the theorems; it succeeds if and only if balances were stored, and then a trade with a route has landed one to three times |
| AutoTrade.Watchers.WatchDeposits | utils-solana.js:183-216 | however often it is called, a user's wallet and token account have exactly one subscription each, and nothing is unsubscribed |
| AutoTrade.RunPays | commands.js:128-138 | on every run each enqueue is owed to a landed transaction, two at most per transaction, and each transaction costs its fee |
| AutoTrade.EnqueuesBounded | commands.js:132-137 | a run enqueues at most twice the number of landed transactions, which is at most twice what the balance can pay for |
| AutoTrade.TwiceIsReached | utils-solana.js:189-214 | the factor two is reached: for every n some run lands n transactions and enqueues 2n jobs |
| AutoTrade.QueueConserved | commands.js:132-137 | on every run the jobs waiting and started are those that waited, those enqueued automatically and those asked for by hand: none is lost and none starts twice |
| AutoTrade.JobLength | worker.js:37-75 | a job is over after at most 37 events, whatever the schedule |
| AutoTrade.StepDrops | commands.js:128-138 | every step of the loop lowers the work that can still come, and a trade asked for by hand raises it by at most 39 |
| AutoTrade.LoopEnds | commands.js:128-138 | the number of steps the loop takes is bounded by the balance and the work outstanding at the start, plus 39 per trade asked for by hand |
| AutoTrade.CanEnqueueIff | commands.js:128-138 | some run still enqueues an automatic trade if and only if a balance above 0.05 SOL is in memory, on chain or read and not yet assigned, and a callback that can carry it to the test is outstanding or affordable |
| AutoTrade.PoorIsFinal | commands.js:132-132 | once the chain, the memory and every balance read but not yet assigned are at or below 0.05 SOL, no run enqueues an automatic trade again |
| AutoTrade.StaleAnswerEnqueues | commands.js:173-174 | one balance read earlier and assigned late is enough to enqueue, however low chain and memory are |
| AutoTrade.OffStaysOff | commands.js:132-132 | with auto-trading off and never switched on, no run enqueues an automatic trade |
| Firewall.MergeComposes | firewall.js:28-28 | the merge of two clamped shifts is their composition |
| Firewall.MergeAssociative | firewall.js:28-43 | merging clamped shifts is associative |
| Firewall.RunIsShift | firewall.js:26-43 | the effect of every run of incidents and heal ticks on HP is one clamped shift, merged from its events, and HP stays between 0 and its maximum |
| Firewall.SummariesMerge | firewall.js:26-43 | the summary of a whole run is the merge of the summaries of its parts, wherever it is cut |
| Firewall.HpIsWhatIsLeft | firewall.js:27-28 | if every tick falls within the heal interval of the latest incident, HP is what the weights have left of it, never below zero |
| Firewall.QuietTicksHeal | firewall.js:41-43 | without further incidents n ticks after the heal interval give back n times the heal rate, up to the maximum |
| Firewall.Bar | firewall.js:20-24 | exactly `BAR_LEN` cells, the rounded share filled and first |
| Firewall.ZeroIsFinalIff | firewall.js:26-47 | once HP is 0 it stays 0 over a whole run if and only if no tick comes later than the heal interval after the latest incident before the process exits, for any publishes |
| Firewall.TimelyNeverHeals | firewall.js:32-43 | with auto-exit, publishes that all resolve within the heal interval rule such ticks out |
| Firewall.ZeroIsFinal | firewall.js:26-47 | with auto-exit and timely publishes, once HP is 0 it is 0 after every later step, and the process has exited or the publish of the latest incident is outstanding |
| Firewall.ExitIsCertain | firewall.js:32-37 | from start-up on, after HP has been 0 either the process has exited or a publish is outstanding, and whichever resolves next ends it |
| Firewall.NoExitUnlessSet | firewall.js:34-37 | a process that is not set to exit never does, whatever happens |
| Firewall.LatePublishEscapes | firewall.js:41-43 | with a publish slower than the heal interval a tick can lift HP off zero first and the process lives on |
| Firewall.Bubble.Record | firewall.js:26-32 | takes the `Hit` step |
| Firewall.Bubble.Resume | firewall.js:34-37 | takes the `Published` step |
| Firewall.Bubble.AutoHeal | firewall.js:41-43 | takes the `HealTick` step |
| Captcha.Gate.Middleware | launcher/server.js:138-158 | counts, renews and clears the address's counter, and asks for the number of captchas due before this request |
| Captcha.CounterIsStreak | launcher/server.js:142-157 | after any history the counter is the length of the longest chain of latest failures since the last success with no gap of an hour in it or after it |
| Captcha.TwoRequiredIff | launcher/server.js:143-143 | two captchas are asked for if and only if six failures form such a chain |
| Captcha.AcceptedIffLastIssued | launcher/server.js:166-186 | a key is accepted if and only if it is the last one issued to that user and two hours are not over |
| QuoteCache.KeyInjective | utils-solana.js:49-49 | cache keys tell mint and printed amount apart, for any mint text and any number JavaScript prints |
| QuoteCache.RoutesAreFresh | utils-solana.js:48-66 | under every interleaving of callers a returned route was the feed's answer for that mint and amount, fetched less than 60 s plus the storing caller's delay plus the returning caller's reply delay ago |
| QuoteCache.LookupServesLatest | utils-solana.js:50-64 | under every interleaving a lookup is answered from the cache if and only if less than 60 s have passed since the latest store for its mint and amount, and then with exactly that store's route; otherwise it goes to the feed |
| QuoteCache.NullsAreNotCached | utils-solana.js:61-65 | whoever returns null was given null by the feed |
| QuoteCache.Quotes.QuoteSOLto | utils-solana.js:48-66 | one call alone does what its steps do: it returns the live cached route and stores nothing, or returns the answer of the feed and stores it for 60 s unless it is null |
| Memory.FlattenPairInverse | memory.js:17-28 | flattening names and values and pairing them up again undo each other, both ways |
| Memory.EntryReadBack | memory.js:17-29 | the object made of an entry has the text and time stamp it was stored with |
| Memory.ReadFields | memory.js:25-28 | the loop over the fields makes the object of their pairs, a later name replacing an earlier one |
| Memory.OthersUnaffected | memory.js:15-19 | a command for one handle leaves every other stream as it was |
| Memory.Projected | memory.js:15-19 | a handle's stream is what its own commands make of it, whatever is served between them |
| Memory.BeginsIff | memory.js:17-18 | a command begins a stream if and only if it adds an entry and every stream begun before it has run out by then |
| Memory.HoldsAlways | memory.js:17-18 | after every command the key holds the one stream begun and not found run out, with its entries and its deadline, or nothing |
| Memory.WindowUnique | memory.js:15-19 | at most one stream is live |
| Memory.RecallIsWindow | memory.js:15-31 | after every interleaving of commands, overlapping calls included, n entries asked of a handle are the last min(n, live) of those added since its stream last began, and none once it has run out |
| Memory.RecallReadsBack | memory.js:15-31 | and their objects have the texts and time stamps they were added with |
| Memory.OverlapLosesBoth | memory.js:17-18 | two overlapping calls of one handle whose stream runs out before either renews it lose both entries and the earlier one |
| Memory.SequentialRecall | memory.js:15-31 | when a handle's calls follow one another, the live entries are its last calls, none lost, each renewed in time by the next and the last less than a day ago |
| Memory.SequentialUnique | memory.js:15-19 | only one number of latest calls can be those |
| Memory.SequentialExists | memory.js:15-19 | and there always is one |
| Memory.PromptWindow | memory.js:17-18 | when entries are added and renewed at one moment, the live ones are the longest run of latest entries less than a day apart, the last less than a day old |
| Memory.GoneIff | memory.js:17-18 | an entry is gone when its own call ends if and only if its stream ran out between adding and renewing |
| Memory.ReverseInPlace | memory.js:31-31 | the array is reversed in place |
| Memory.Store.Append | memory.js:15-17 | takes the `Add` command and keeps entries in pairs |
| Memory.Store.Renew | memory.js:18-18 | takes the `Keep` command and keeps entries in pairs |
| Memory.Store.Remember | memory.js:15-19 | a call that nothing comes between takes both |
| Memory.Store.Recall | memory.js:21-31 | a fresh array of the objects of the last `limit` live entries, oldest first; throws exactly if asked for none of a stream that is there |
| Portfolio.Aggregate | commands.js:191-196 | exactly the mints with a positive account, each once, each with the sum of its positive amounts |
| Portfolio.BalancesIgnoreOrder | commands.js:191-196 | balances do not depend on the order of the accounts |
| Portfolio.Cents | commands.js:205-205 | the nearest number of cents, the larger of two equally near |
| Portfolio.CentsShift | commands.js:207-214 | whole cents can be added before or after rounding |
| Portfolio.PriceIsFound | commands.js:203-204 | the price of a mint is the one listed under its lower-case spelling, and 0 if none is |
| Portfolio.PriceTokens | commands.js:200-208 | a line per mint with its balance, the price listed under its lower-case spelling or 0, and their product to the nearest cent; the total is raised by those values |
| Portfolio.GetPortfolio | commands.js:181-215 | each held mint shown once with the sum of its accounts, the price listed under its lower-case spelling or 0, and their product to the nearest cent; the displayed total is exactly the displayed SOL value, if its price is known, plus the displayed values |
| Portfolio.TotalIgnoresOrder | commands.js:187-214 | snapshots of the same accounts in any order show the same total |
| Portfolio.TotalNearTrue | commands.js:187-214 | with the SOL price known the displayed total is within 0.005 (n + 1) of the value of the SOL and of every held balance at the price listed for its mint, for n tokens |

## Left out

- Commands.CommandRoundTrip: the amount stays text, its numeric conversion is not modelled; the configured Twitter handle is taken as literal text, and case folding is ASCII.
- JsonRepair.RepairPreservesMeaningIff: an object's meaning is its list of members in order, so two equal names are two members, and numbers and literals are compared as texts.
- Token.TokenRoundTripIff: the milliseconds of one issue are the same for all three clock reads; in payloads not made by `signToken`, expiry times that are not natural numbers count as errors.
- Codec.TextRoundTrip: texts are sequences of Unicode scalar values; strings with lone surrogates, which `Buffer.from` replaces, are outside the model.
- UserDb.StepReads: elements of a wallet text that are not plain digits count as broken, where the code coerces them to bytes.
- UserDb.LastWalletWins: the same; and replacement characters of malformed UTF-8 and lenient base64 are modelled only as far as `Codec` goes.
- UserDb.Db.SetWalletSecret: the wiping of buffers is not modelled.
- Hydration.InitializeUsers: which 64 bytes are a keypair is a parameter, and balances stay as texts.
- WriteBehind.QuietRowsAgree: Redis commands do not fail and the connection does not drop; one agent process and the worker, not several processes with maps of their own.
- TradeJob.TradeJobSafe: event publishing and firewall incidents on failure and the final Telegram message are not modelled; a job is not restarted by the queue.
- AutoTrade.EnqueuesBounded: one user, no deposits, and a persist that does not fail; the floor on the cost of a transaction is a parameter.
- Firewall.RunIsShift: weights, maximum, heal rate and interval are positive.
- Captcha.CounterIsStreak: each check is taken as one step.
- QuoteCache.KeyInjective: amounts are compared as printed; that different numbers print differently is not part of the model.
- Memory.Store.Recall: that a count of zero or less gets no reply for a stream, and an empty one without a stream, is Redis's behaviour as understood here.
- Portfolio.GetPortfolio: exact reals instead of floating point, balances and prices that are not negative, and mints that are not array indices of the balances object.
- Chat menus and button payloads, Telegram and Twitter clients, HTTP routes, CORS, CSRF, rate limits, logging and metrics only wire libraries together.
- Token launch, pools, image and language-model calls: straight-line calls of other services.
- `utils-token.js`, `jobQueue.js` and `redisClient.js` forward to a library, `index.js`, `check-env.js` and `ensure-deps.js` start the process and check its environment, and the decimals cache of `utils-solana.js` remembers a constant per mint: none of them decides anything the results above depend on.
