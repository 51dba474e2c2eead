# snitchbot relay core in Dafny

snitchbot is an IRC relay bot built on Twisted. Two kinds of connection share one sqlite database:

- **Feed connection (`Snatch`).** It sits in the recent-changes channels of wikis (`#en.wikipedia.org`, ...) and parses every line as an edit or a log action. It then runs the stored rules for that wiki and hands each selected event to every admin connection.
- **Admin connection (`Snitch`).** It reports events to subscriber channels through `tattle`. It also takes the commands that edit the rule table (`!stalk`, `!ignore`, `!unstalk`, `!unignore`), list it (`!list`), change the channel table (`!join`, `!part`), and shut the bot down or send raw lines. The last two need an authorised hostmask.

The project models these parts and proves what they guarantee:

| file | module | contents |
|---|---|---|
| `strings.dfy` | `Strings` | the Python 2 string operations the core uses: `split(' ')`, `' '.join`, `lower`, `in`, `replace('http://', 'https://')` and `strip(chars)` |
| `formatting.dfy` | `Formatting` | `strip_formatting`, as the left-to-right scan its substitution performs |
| `model.dfy` | `Model` | rules, parsed events, the recorded output lines, the rule predicate by type, and the notification text of `tattle` |
| `engine.dfy` | `Engine` | the rule loop of the feed connection, as functions over the ordered rule list: at most one message per channel, ignore rules win, exactly-once delivery, and the leak of the `[none]` placeholder into later rules |
| `reconcile.dfy` | `Reconcile` | `syncChannels` and the `joined`/`left` callbacks: joins and parts are disjoint, the callbacks converge on the desired set, and a second sync is silent |
| `commands.dfy` | `Commands` | validation and application of rule commands, `!list`, and the routing of an admin message to a command |
| `relay.dfy` | `Relay` | the `Snatch` and `Snitch` classes and the database, as imperative methods proved against the functions above |

What a connection sends to its server is appended to its `sent` field as `Line` values. A connection's `channels` set changes only in the `Joined`/`Left` callbacks, and, on the admin side, in `signedOn`, as in the source.

These are parameters of the model:

- **`fm(pattern, text)`**: the anchored case-insensitive regular-expression match.
- **`validRegex(pattern)`**: whether `re.compile` accepts the pattern.
- **`parseEdit` / `parseAction`**: the two feed-line patterns.
- **`authorized`**: the trusted hostmasks from the settings module.
- **`rows` / `listed`**: the order in which a database query returns its rows. Each is constrained by the predicate stating what the query can return: `IsWikiQuery` (ignore rules first), `IsChannelQuery`, or `Enumerates`.

An exception raised while handling a message is caught and logged by the IRC protocol layer, and the line is dropped. The model therefore treats the two failing inputs as no-ops (`Commands.Fails`):

- a sender without `@`;
- `!join` with no argument.

Three behaviours of the code are worth stating on their own:

- A bare `!join` raises at snitchbot.py:285, which reads `params[0]` for the `monowatchlist|monowiki` test. The emptiness test at snitchbot.py:287 and the usage reply at snitchbot.py:288 are never reached.
- `!quit` calls `stopTrying` only for the feed connections (snitchbot.py:164-167, 304-305). The admin connection's own `quit` at snitchbot.py:310-313 is indented inside `privmsg`, so it is a local function that is never called. `!quit` therefore runs the library's `quit` (snitchbot.py:303), which only sends QUIT, and the admin factory is never told to stop trying. Whether the process then ends is up to `stopFactory` (snitchbot.py:343-348), which stops the reactor once the last factory stops; that lifecycle is not modelled.
- The lock list of the rule loop (snitchbot.py:119-154) belongs to one feed event, and every admin connection adds the rule's channel to it. "At most one notification per channel" therefore holds for each admin connection separately.

## Model

| member | source | states |
|---|---|---|
| Formatting.StripFormatting | snitchbot.py:32-37 | the result has no bold or colour byte and is never longer than the line |
| Formatting.ColorCodeLength | snitchbot.py:32 | the colour code after `\x03` is the longest prefix of the form `d`, `dd`, `d,d`, `d,dd`, `dd,d` or `dd,dd`: empty exactly when no digit follows, a colour code when not empty, and no longer prefix is one |
| Formatting.LongestColorCode | snitchbot.py:32 | the greedy choice (as many foreground digits as possible, then a comma only when a digit follows) leaves no longer colour-code prefix |
| Formatting.StripKeepsPlainLine | snitchbot.py:32-37 | a line without formatting bytes is returned unchanged |
| Formatting.StripIdempotent | snitchbot.py:32-37 | stripping twice gives the same as stripping once |
| Formatting.StripKeepsText | snitchbot.py:32-37 | every character other than bold, colour, digits and comma occurs as often in the result as in the line |
| Formatting.StripExampleColorAndBold | snitchbot.py:32-37 | `\x0304,12hi\x02!` becomes `hi!`: a full `fg,bg` code and a bold toggle are removed |
| Formatting.StripExampleShortCodes | snitchbot.py:32 | a comma without a following digit, and a third digit, stay in the text |
| Strings.Lower | snitchbot.py:145 | lower-casing keeps the length, maps each capital to the letter 32 code points above it, and leaves every other character as it is |
| Strings.JoinSplit | snitchbot.py:223 | joining the space-split words with a space gives back the text, so the pattern words rejoin to the typed pattern |
| Strings.SplitJoin | snitchbot.py:267-268 | splitting a join of space-free words gives back the words |
| Strings.SplitAfter | snitchbot.py:267-268 | a space-free word followed by a space splits off as the first word |
| Strings.SecureSchemeComplete | snitchbot.py:322 | after the replacement, the url contains no `http://` |
| Strings.SecureSchemeKeepsSecureUrl | snitchbot.py:322 | a url without `http://` is unchanged |
| Strings.StripCharsSlice | snitchbot.py:325 | `strip(chars)` returns a slice whose removed prefix and suffix consist only of those characters and whose ends are not among them |
| Model.RuleMatches | snitchbot.py:124-148 | the rule test by type: `all` and unknown types select every event; `summary`, `user` and `page` match their field, `page` reading the summary of a log action; `log` compares the lower-cased pattern with the log type |
| Model.LogRuleMissesCapitalisedType | snitchbot.py:143-148 | only the pattern is lower-cased, so a log type containing a capital letter is never selected |
| Model.WithPlaceholder | snitchbot.py:318-320 | an edit with an empty summary gets `[none]` and nothing else changes; any other event is returned as it is |
| Model.Notification | snitchbot.py:321-325 | the text `tattle` sends for an edit or a log action |
| Model.Tattled | snitchbot.py:315-325 | `tattle` sends at most one message, to the rule's channel, exactly when the connection has joined it; the event comes back with its summary filled in exactly when the connection has joined, and unchanged otherwise |
| Model.LogNotification | snitchbot.py:323-325 | a log action is reported as `user summary; https://W.org/wiki/Special:Log/log`, where W is the rule's wiki with the characters of `.org` stripped from both ends |
| Model.EditNotification | snitchbot.py:318-322 | an edit is reported as page, user, summary (or `[none]`) and url joined by `; `, with no `http://` left in the url, and an already secure url kept as it is |
| Model.LogLinkForPlainName | snitchbot.py:324-325 | for a name `w.org` whose ends are outside `.org`, the log link names `w` |
| Model.LogLinkDropsLeadingOrgLetters | snitchbot.py:324-325 | the strip removes letters of `.org` at the start of the name as well |
| Model.LogLinkForRomanianWikipedia | snitchbot.py:325 | for `ro.wikipedia.org` the log link host is `wikipedia.org` |
| Engine.FanOut | snitchbot.py:152-154 | the inner loop locks the rule's channel once per admin connection and only appends to each connection's lines |
| Engine.FanOutSends | snitchbot.py:152-154 | in the inner loop, each admin connection that has joined the rule's channel gets exactly one message, with the text of the event as the first `tattle` filled it in; every other connection gets nothing |
| Engine.Step | snitchbot.py:120-154 | one turn of the rule loop: a locked channel or a rule that does not select the event changes nothing, an ignore rule only locks, a notify rule fans out; lines are only appended |
| Engine.Evaluate | snitchbot.py:119-154 | the rule loop over the ordered rules; lines are only appended |
| Engine.Outcome | snitchbot.py:119-154 | the lines of each admin connection for one feed event: one list per connection, holding only messages to channels it has joined |
| Engine.SingleRuleOutcome | snitchbot.py:124-154 | a single rule by type: an ignore rule sends nothing; a notify rule sends what `tattle` sends exactly when the test of its type passes, with `all` and unknown types always passing and `log` needing a log action of the lower-cased pattern's type |
| Engine.FanOutLocks | snitchbot.py:152-154 | with at least one admin connection, the inner loop locks the rule's channel; nothing already locked is unlocked |
| Engine.DeliveredByTattle | snitchbot.py:315-325 | one `tattle` delivers to channel c once if c is the joined rule channel, otherwise never |
| Engine.AtMostOncePerChannel | snitchbot.py:119-154 | for every event and rule order, each admin connection gets at most one message per channel |
| Engine.LockedStays | snitchbot.py:119-122 | once a channel is locked it stays locked and receives nothing more for the event |
| Engine.IgnoreSuppresses | snitchbot.py:115-154 | with ignore rules first, a selecting ignore rule for c means no connection gets a message for c |
| Engine.NoMatchNoMessage | snitchbot.py:119-154 | when no rule selects the event, nothing is sent |
| Engine.NoConnectionLocksOnlyIgnored | snitchbot.py:149-154 | with no admin connection, only ignore rules lock channels |
| Engine.OnlyJoinedAndNotified | snitchbot.py:119-154 | every line sent is a message to a channel the connection has joined and that a selecting notify rule names |
| Engine.ExactlyOnce | snitchbot.py:119-154 | for an event that `tattle` leaves unchanged (no empty edit summary), a joined channel with a selecting notify rule and no selecting ignore rule gets exactly one message |
| Engine.Dispatch | snitchbot.py:115-154 | for an event that `tattle` leaves unchanged and ignore rules first, connection k gets one message for c iff it joined c, a notify rule for c selects the event and no ignore rule for c does; otherwise none |
| Engine.FanOutDiff | snitchbot.py:152-154 | after the inner loop the event carries the placeholder iff some connection had joined the rule's channel |
| Engine.PlaceholderReachesLaterRules | snitchbot.py:119-154 | after an empty-summary edit is reported, a later summary rule that does not select the original event still fires on `[none]` |
| Engine.PlaceholderHidesFromLaterRules | snitchbot.py:119-154 | after an empty-summary edit is reported, a later summary rule that selects the original event but not `[none]` sends nothing to its channel |
| Reconcile.Desired | snitchbot.py:158-160 | a channel is desired exactly when it starts with `#` and the rest of its name is the wiki of a stored rule |
| Reconcile.Callbacks | snitchbot.py:97-103 | the channel set after the server confirms each join and part of a sync, one callback each |
| Reconcile.IsSync | snitchbot.py:156-162 | one sync: joins of the desired channels not yet joined, then parts of the joined channels not desired, each set in some order |
| Reconcile.CallbacksJoins | snitchbot.py:97-99 | confirming joins adds exactly the joined channels |
| Reconcile.CallbacksParts | snitchbot.py:101-103 | confirming parts removes exactly the parted channels |
| Reconcile.SyncDisjoint | snitchbot.py:156-162 | a sync joins only desired channels not yet joined and parts only joined channels not desired, so no channel is both joined and parted |
| Reconcile.Converges | snitchbot.py:97-162 | once every join and part of a sync is confirmed, the channel set equals the desired set |
| Reconcile.SecondSyncIsQuiet | snitchbot.py:156-162 | a sync on a channel set already equal to the desired set sends nothing |
| Commands.ParseRule | snitchbot.py:205-228 | an accepted command has a known type, an empty pattern for `all`, and otherwise the words after the type joined by spaces, which must be a valid pattern; every other command gets one of the four rejection replies |
| Commands.ParseRuleVerdict | snitchbot.py:205-228 | exactly which parameter lists are accepted; fewer than two words gets the usage text, an unknown type the list of types, a missing pattern "That requires a pattern.", and a pattern `re.compile` refuses "Invalid pattern." |
| Commands.UpdateStore | snitchbot.py:205-253 | a rejection leaves the table and skips the sync; otherwise add gives table plus rule and remove gives table minus rule, with the reply telling whether the rule was there, and the sync always follows |
| Commands.AddThenRemove | snitchbot.py:229-251 | adding a new rule and then removing it restores the table, with the replies "Rule added." and "Rule deleted." |
| Commands.AddTwice | snitchbot.py:244-246 | adding a rule again leaves the table and replies "Rule already exists." |
| Commands.StoreStaysWellFormed | snitchbot.py:205-251 | every stored rule keeps a known type, an empty `all` pattern and a valid pattern otherwise |
| Commands.ListReplies | snitchbot.py:278-283 | `!list` sends one message per listed rule, in order, as `wiki; type; pattern` |
| Commands.ListShowsAddedRule | snitchbot.py:278-283 | after a successful `!stalk` or `!ignore`, `!list` in that channel shows the rule |
| Commands.ListingHidesIgnore | snitchbot.py:282 | a notify rule and an ignore rule with the same wiki, type and pattern are listed identically |
| Commands.CommandText | snitchbot.py:258-263 | a private message is taken as it is, a channel message only after a leading `!`, anything else is ignored |
| Commands.Route | snitchbot.py:255-308 | which command a message asks for, with the two inputs that raise and the authorisation checks |
| Commands.IsBlocked | snitchbot.py:285 | a `join` is refused when `monowatchlist` or `monowiki` occurs in the name in any ASCII letter case |
| Commands.AfterFirst | snitchbot.py:266 | the hostmask is the text after the first `@` |
| Commands.OnlyAuthorizedEscalate | snitchbot.py:300-308 | shutdown and raw lines need a sender with `@` whose hostmask is authorised; a raw line is the command text |
| Commands.ChannelChatterIgnored | snitchbot.py:258-263 | a channel message not starting with `!` does nothing |
| Commands.PrivateLikePrefixed | snitchbot.py:258-263 | a private message routes like the same text after `!` in a channel |
| Commands.BareJoinFails | snitchbot.py:284-288 | `!join` without an argument raises before the usage reply is reached |
| Commands.SenderWithoutHostFails | snitchbot.py:266 | a command from a sender without `@` raises |
| Commands.StalkWords | snitchbot.py:267-268 | `stalk wiki type pattern` splits into the action, wiki, type and the pattern's words |
| Commands.RoutesStalk | snitchbot.py:267-271 | a command whose first word is `stalk` becomes a notify-rule addition with the remaining words as parameters |
| Commands.StalkPatternRoundTrip | snitchbot.py:260-271 | `!stalk wiki type pattern` stores exactly the typed pattern, spaces included |
| Commands.ParsesStalkWords | snitchbot.py:205-228 | the words after `stalk` give back the wiki, the type and the whole pattern |
| Relay.Database.constructor | snitchbot.py:15-27 | the database holds the given rule and channel tables |
| Relay.ParseFeedLine | snitchbot.py:108-110 | a line is dropped exactly when neither pattern accepts it; otherwise the event is one of the two readings, and when both accept the line the edit reading wins |
| Relay.Snitch.constructor | snitchbot.py:176-182 | a new admin connection has joined nothing and sent nothing |
| Relay.Snitch.SignedOn | snitchbot.py:190-195 | every channel of the channel table is added to the set and joined once, in table order |
| Relay.Snitch.Joined | snitchbot.py:197-199 | a confirmed join adds the channel |
| Relay.Snitch.Left | snitchbot.py:201-203 | a confirmed part removes the channel |
| Relay.Snitch.Tattle | snitchbot.py:315-325 | the connection sends what `Tattled` gives for its channels and returns the possibly updated event |
| Relay.Snitch.UpdateRules | snitchbot.py:205-253 | the rule table becomes what `UpdateStore` gives, its reply is sent, and every feed connection is resynchronised exactly when the command was accepted |
| Relay.Snitch.Privmsg | snitchbot.py:255-308 | for the routed command, the replies sent, the new rule and channel tables, and each feed connection's effect (stopped with QUIT, resynchronised, or untouched) |
| Relay.Snitch.ListTo | snitchbot.py:278-283 | `!list` sends `ListReplies` for the channel's rules |
| Relay.SyncAll | snitchbot.py:252-253 | every feed connection sends one sync against the new rule table |
| Relay.QuitAll | snitchbot.py:304-305 | every feed connection sends QUIT and stops reconnecting |
| Relay.Snatch.constructor | snitchbot.py:80-86 | a new feed connection has joined nothing, sent nothing and is not stopped |
| Relay.Snatch.Joined | snitchbot.py:97-99 | a confirmed join adds the channel |
| Relay.Snatch.Left | snitchbot.py:101-103 | a confirmed part removes the channel |
| Relay.Snatch.SyncChannels | snitchbot.py:156-162 | the lines sent are one sync against the rule table; the channel set waits for the callbacks |
| Relay.Snatch.SendJoins | snitchbot.py:161 | each given channel is joined once, in some order |
| Relay.Snatch.SendParts | snitchbot.py:162 | each given channel is parted once, in some order |
| Relay.Snatch.SignedOn | snitchbot.py:94-95 | signing on performs one sync |
| Relay.Snatch.Quit | snitchbot.py:164-167 | QUIT is sent and the connection stops reconnecting |
| Relay.Snatch.Privmsg | snitchbot.py:105-154 | after stripping and parsing a feed line, each admin connection sends exactly the lines `Outcome` specifies for the wiki's rules; an unparsable line sends nothing |
| Relay.RunRules | snitchbot.py:119-154 | the rule loop leaves each admin connection with exactly its `Outcome` lines |
| Relay.ApplyRule | snitchbot.py:120-154 | one turn of the rule loop performs `Step` |
| Relay.TattleAll | snitchbot.py:152-154 | the inner loop performs `FanOut` on the admin connections |

## Left out

- IRC transport: `msg`, `join`, `part`, `sendLine` and `quit` are recorded as `Line` values; nothing is sent over a network.
- The keep-alive PING loop (snitchbot.py:54-74) and the reconnecting factory's backoff (snitchbot.py:328-348): these are timers and reconnection. The model keeps only the `stopped` flag that `quit` sets for a feed connection.
- Connection loss (`connectionLost`): removal from the factory lists and closing of the cursor are not modelled. The lists of connections are parameters of the methods that use them.
- sqlite, the factory lifecycle, `main` and logging (snitchbot.py:328-362): the tables are the two sets of `Relay.Database`. The order of query results is a parameter, constrained by what each query can return.
- The regular-expression engine: the anchored case-insensitive rule match (`fm`), `re.compile` validity (`validRegex`), and the two feed-line patterns (`parseEdit`, `parseAction`) are parameters. The `monowatchlist|monowiki` test is written out as an ASCII case-insensitive substring test.
- The settings module: `authorized_users` is the `authorized` parameter, and the nickname is a constructor argument.
- The misindented `quit` at snitchbot.py:310-313 is a local function that is never called. It is not modelled.
- The sender's nick, `sender.split('!', 1)[0]` (snitchbot.py:265), is computed but never used, so it is not modelled.
- Engine.Dispatch: stated only for events that `tattle` leaves unchanged (log actions and edits with a summary). For an edit with an empty summary, later rules see `[none]`, and no rule-by-rule iff holds: Engine.PlaceholderReachesLaterRules shows a message that no rule selecting the original event asked for, and Engine.PlaceholderHidesFromLaterRules shows a message lost although a notify rule selects the original event.
