/** The admin connection's command language: how a channel or private
    message becomes a command (`Snitch.privmsg`), how `!stalk`, `!ignore`,
    `!unstalk` and `!unignore` are validated and applied to the rule table
    (`Snitch.updateRules`), and what `!list` replies. */
module Commands {
  import opened Strings
  import opened Model

  const Usage: string := "!(un)stalk wiki (page|user|summary|log|all) [pattern]"
  const BadType: string := "Type must be one of: all, user, summary, page, log."
  const NeedsPattern: string := "That requires a pattern."
  const BadPattern: string := "Invalid pattern."
  const Deleted: string := "Rule deleted."
  const NoSuchRule: string := "No such rule."
  const AlreadyThere: string := "Rule already exists."
  const Added: string := "Rule added."
  const HelpText: string := "!(stalk|ignore|unstalk|unignore|list|join|part|quit)"
  const Refusal: string := "FUCK OFF."

  // ---------------------------------------------------------------------
  // updateRules
  // ---------------------------------------------------------------------

  /** The rule a command names, or the reply that rejects it. */
  datatype Parsed = Parsed(wiki: string, kind: string, pattern: string) | Rejected(reply: string)

  /** Validation of `params` (`wiki type [pattern words...]`); `validRegex`
      stands for "`re.compile` accepts the pattern". */
  function ParseRule(params: seq<string>, validRegex: string -> bool): (p: Parsed)
    ensures p.Parsed? ==> |params| >= 2 && p.wiki == params[0] && p.kind == params[1] && p.kind in KnownKinds
    ensures p.Parsed? && p.kind == "all" ==> p.pattern == []
    ensures p.Parsed? && p.kind != "all" ==> |params| >= 3 && p.pattern == JoinWith(" ", params[2..]) && validRegex(p.pattern)
    ensures p.Rejected? ==> p.reply in {Usage, BadType, NeedsPattern, BadPattern}
  {
    if |params| < 2 then Rejected(Usage)
    else if params[1] !in KnownKinds then Rejected(BadType)
    else if params[1] == "all" then Parsed(params[0], params[1], [])
    else if |params| < 3 then Rejected(NeedsPattern)
    else
      var pattern := JoinWith(" ", params[2..]);
      if validRegex(pattern) then Parsed(params[0], params[1], pattern) else Rejected(BadPattern)
  }

  /** Which commands are accepted, and why the others are refused. */
  lemma ParseRuleVerdict(params: seq<string>, validRegex: string -> bool)
    ensures ParseRule(params, validRegex).Parsed? <==>
      |params| >= 2 && params[1] in KnownKinds
      && (params[1] == "all" || (|params| >= 3 && validRegex(JoinWith(" ", params[2..]))))
    ensures |params| < 2 ==> ParseRule(params, validRegex) == Rejected(Usage)
    ensures |params| >= 2 && params[1] !in KnownKinds ==> ParseRule(params, validRegex) == Rejected(BadType)
    ensures |params| == 2 && params[1] in KnownKinds && params[1] != "all" ==> ParseRule(params, validRegex) == Rejected(NeedsPattern)
    ensures |params| >= 3 && params[1] in KnownKinds && params[1] != "all" && !validRegex(JoinWith(" ", params[2..]))
      ==> ParseRule(params, validRegex) == Rejected(BadPattern)
  {
  }

  /** The stored rule a valid command denotes. */
  function RuleOf(p: Parsed, channel: string, ignore: bool): Rule
    requires p.Parsed?
  {
    Rule(p.wiki, p.kind, p.pattern, channel, ignore)
  }

  /** The rule table afterwards, the reply, and whether the feed connections
      are resynchronised (every outcome that reaches the table does so). */
  datatype Update = Update(rules: set<Rule>, reply: string, resync: bool)

  function UpdateStore(rules: set<Rule>, channel: string, params: seq<string>, ignore: bool, remove: bool, validRegex: string -> bool): (u: Update)
    ensures u.resync <==> ParseRule(params, validRegex).Parsed?
    ensures !u.resync ==> u.rules == rules && u.reply == ParseRule(params, validRegex).reply
    ensures u.resync && remove ==>
      var r := RuleOf(ParseRule(params, validRegex), channel, ignore);
      u.rules == rules - {r} && (u.reply == Deleted <==> r in rules) && (u.reply == NoSuchRule <==> r !in rules)
    ensures u.resync && !remove ==>
      var r := RuleOf(ParseRule(params, validRegex), channel, ignore);
      u.rules == rules + {r} && (u.reply == AlreadyThere <==> r in rules) && (u.reply == Added <==> r !in rules)
  {
    var p := ParseRule(params, validRegex);
    if p.Rejected? then Update(rules, p.reply, false)
    else
      var r := RuleOf(p, channel, ignore);
      if remove then
        if r in rules then Update(rules - {r}, Deleted, true) else Update(rules, NoSuchRule, true)
      else
        if r in rules then Update(rules, AlreadyThere, true) else Update(rules + {r}, Added, true)
  }

  /** Adding a rule that is not there and then removing it gives back the
      table, with the replies "Rule added." and "Rule deleted.". */
  lemma AddThenRemove(rules: set<Rule>, channel: string, params: seq<string>, ignore: bool, validRegex: string -> bool)
    requires ParseRule(params, validRegex).Parsed?
    requires RuleOf(ParseRule(params, validRegex), channel, ignore) !in rules
    ensures var added := UpdateStore(rules, channel, params, ignore, false, validRegex);
      added.reply == Added
      && UpdateStore(added.rules, channel, params, ignore, true, validRegex) == Update(rules, Deleted, true)
  {
    var r := RuleOf(ParseRule(params, validRegex), channel, ignore);
    assert (rules + {r}) - {r} == rules;
  }

  /** Adding the same rule twice leaves the table as after the first add. */
  lemma AddTwice(rules: set<Rule>, channel: string, params: seq<string>, ignore: bool, validRegex: string -> bool)
    requires ParseRule(params, validRegex).Parsed?
    ensures var once := UpdateStore(rules, channel, params, ignore, false, validRegex);
      UpdateStore(once.rules, channel, params, ignore, false, validRegex) == Update(once.rules, AlreadyThere, true)
  {
  }

  /** Every rule a command can store has a known type, an empty pattern for
      `all`, and a compilable pattern otherwise. */
  predicate WellFormed(rules: set<Rule>, validRegex: string -> bool) {
    forall r :: r in rules ==>
      r.kind in KnownKinds && (r.kind == "all" ==> r.pattern == []) && (r.kind != "all" ==> validRegex(r.pattern))
  }

  lemma StoreStaysWellFormed(rules: set<Rule>, channel: string, params: seq<string>, ignore: bool, remove: bool, validRegex: string -> bool)
    requires WellFormed(rules, validRegex)
    ensures WellFormed(UpdateStore(rules, channel, params, ignore, remove, validRegex).rules, validRegex)
  {
  }

  // ---------------------------------------------------------------------
  // !list
  // ---------------------------------------------------------------------

  /** `'%s; %s; %s' % (wiki, type, pattern)` */
  function Listing(r: Rule): string {
    r.wiki + "; " + r.kind + "; " + r.pattern
  }

  function ListReplies(rows: seq<Rule>, channel: string): (ls: seq<Line>)
    ensures |ls| == |rows|
    ensures forall i :: 0 <= i < |rows| ==> ls[i] == Msg(channel, Listing(rows[i]))
  {
    if rows == [] then [] else [Msg(channel, Listing(rows[0]))] + ListReplies(rows[1..], channel)
  }

  /** `rows` is what `SELECT * FROM rules WHERE channel=?` can return. */
  ghost predicate IsChannelQuery(rows: seq<Rule>, store: set<Rule>, channel: string) {
    (forall r :: r in rows <==> r in store && r.channel == channel) && Distinct(rows)
  }

  /** After a successful `!stalk` or `!ignore`, `!list` in that channel
      shows the new rule. */
  lemma ListShowsAddedRule(rules: set<Rule>, channel: string, params: seq<string>, ignore: bool, validRegex: string -> bool, rows: seq<Rule>)
    requires ParseRule(params, validRegex).Parsed?
    requires IsChannelQuery(rows, UpdateStore(rules, channel, params, ignore, false, validRegex).rules, channel)
    ensures var p := ParseRule(params, validRegex);
      Msg(channel, p.wiki + "; " + p.kind + "; " + p.pattern) in ListReplies(rows, channel)
  {
    var r := RuleOf(ParseRule(params, validRegex), channel, ignore);
    assert r in rows;
    var i :| 0 <= i < |rows| && rows[i] == r;
    assert ListReplies(rows, channel)[i] == Msg(channel, Listing(r));
  }

  /** The listing does not show the ignore flag: a notify rule and an
      ignore rule with the same wiki, type and pattern read the same. */
  lemma ListingHidesIgnore(r: Rule, s: Rule)
    requires r.wiki == s.wiki && r.kind == s.kind && r.pattern == s.pattern
    requires r.ignore && !s.ignore
    ensures r != s && Listing(r) == Listing(s)
  {
  }

  // ---------------------------------------------------------------------
  // privmsg routing
  // ---------------------------------------------------------------------

  /** `s.split(c, 1)[1]`: the text after the first `c`. */
  function AfterFirst(s: string, c: char): (r: string)
    requires c in s
    ensures |r| < |s| && r == s[|s| - |r|..]
    ensures s[|s| - |r| - 1] == c && c !in s[..|s| - |r| - 1]
  {
    if s[0] == c then s[1..] else AfterFirst(s[1..], c)
  }

  /** The `join` refusal: `monowatchlist` or `monowiki` anywhere in the
      name, in any ASCII letter case. */
  predicate IsBlocked(name: string) {
    Contains(Lower(name), "monowatchlist") || Contains(Lower(name), "monowiki")
  }

  /** What a message to the admin connection asks for. */
  datatype Command =
    | NoAction                                          // not addressed, or refused silently
    | Fails                                             // raises IndexError before any effect
    | Stalk(params: seq<string>, ignore: bool, remove: bool)
    | ListRules
    | Refuse                                            // blocked `join`
    | JoinChannel(name: string)
    | PartChannel
    | Help
    | Shutdown
    | Raw(line: string)

  /** The command text: a private message as it is, a channel message only
      after a leading '!'. */
  function CommandText(channel: string, message: string, nickname: string): Option<string> {
    if channel == nickname then Some(message)
    else if StartsWith(message, "!") then Some(message[1..])
    else None
  }

  /** `Snitch.privmsg` up to the point where it acts. */
  function Route(sender: string, channel: string, message: string, nickname: string, authorized: set<string>): Command {
    if sender == [] then NoAction
    else match CommandText(channel, message, nickname)
      case None => NoAction
      case Some(text) =>
        if '@' !in sender then Fails
        else
          var host := AfterFirst(sender, '@');
          var words := SplitOn(text, ' ');
          var action := words[0];
          var params := words[1..];
          if action == "stalk" then Stalk(params, false, false)
          else if action == "ignore" then Stalk(params, true, false)
          else if action == "unstalk" then Stalk(params, false, true)
          else if action == "unignore" then Stalk(params, true, true)
          else if action == "list" then ListRules
          else if action == "join" then
            (if params == [] then Fails
             else if IsBlocked(params[0]) then Refuse
             else JoinChannel(params[0]))
          else if action == "part" then PartChannel
          else if action == "help" then Help
          else if action == "quit" then (if host in authorized then Shutdown else NoAction)
          else if host in authorized then Raw(text) else NoAction
  }

  /** Shutting down and raw protocol lines need a sender whose hostmask is
      authorised; the raw line is the command text after the '!'. */
  lemma OnlyAuthorizedEscalate(sender: string, channel: string, message: string, nickname: string, authorized: set<string>)
    ensures var c := Route(sender, channel, message, nickname, authorized);
      (c.Shutdown? || c.Raw?) ==> '@' in sender && AfterFirst(sender, '@') in authorized
    ensures var c := Route(sender, channel, message, nickname, authorized);
      c.Raw? ==> CommandText(channel, message, nickname) == Some(c.line)
  {
  }

  /** A channel message without the '!' prefix is never a command. */
  lemma ChannelChatterIgnored(sender: string, channel: string, message: string, nickname: string, authorized: set<string>)
    requires channel != nickname && !StartsWith(message, "!")
    ensures Route(sender, channel, message, nickname, authorized) == NoAction
  {
  }

  /** A private message is routed like the same text after '!' in a channel. */
  lemma PrivateLikePrefixed(sender: string, channel: string, text: string, nickname: string, authorized: set<string>)
    requires channel != nickname
    ensures Route(sender, nickname, text, nickname, authorized) == Route(sender, channel, "!" + text, nickname, authorized)
  {
    assert StartsWith("!" + text, "!");
    assert ("!" + text)[1..] == text;
  }

  /** `!join` without an argument fails: the argument is read before it is
      checked for, so the usage reply for that case is never sent. */
  lemma BareJoinFails(sender: string, channel: string, nickname: string, authorized: set<string>)
    requires sender != [] && channel != nickname
    ensures Route(sender, channel, "!join", nickname, authorized) == Fails
  {
    assert StartsWith("!join", "!");
    assert "!join"[1..] == "join";
    SplitPlain("join", ' ');
  }

  /** A sender without '@' cannot issue any command. */
  lemma SenderWithoutHostFails(sender: string, channel: string, message: string, nickname: string, authorized: set<string>)
    requires sender != [] && '@' !in sender
    requires CommandText(channel, message, nickname).Some?
    ensures Route(sender, channel, message, nickname, authorized) == Fails
  {
  }

  /** The words of `stalk wiki type pattern`. */
  lemma StalkWords(wiki: string, kind: string, pattern: string)
    requires ' ' !in wiki && ' ' !in kind
    ensures SplitOn("stalk " + wiki + " " + kind + " " + pattern, ' ') == ["stalk", wiki, kind] + SplitOn(pattern, ' ')
  {
    var text := "stalk " + wiki + " " + kind + " " + pattern;
    assert text == "stalk" + [' '] + (wiki + [' '] + (kind + [' '] + pattern));
    SplitAfter("stalk", wiki + [' '] + (kind + [' '] + pattern), ' ');
    SplitAfter(wiki, kind + [' '] + pattern, ' ');
    SplitAfter(kind, pattern, ' ');
  }

  /** A channel command whose first word is `stalk` adds a notify rule
      with the remaining words as parameters. */
  lemma RoutesStalk(sender: string, channel: string, text: string, nickname: string, authorized: set<string>)
    requires sender != [] && '@' in sender && channel != nickname
    requires SplitOn(text, ' ')[0] == "stalk"
    ensures Route(sender, channel, "!" + text, nickname, authorized) == Stalk(SplitOn(text, ' ')[1..], false, false)
  {
    assert StartsWith("!" + text, "!");
    assert ("!" + text)[1..] == text;
  }

  /** `!stalk wiki type pattern` keeps every space inside the pattern: the
      words after the type are joined back to the text that was typed. */
  lemma StalkPatternRoundTrip(sender: string, channel: string, nickname: string, authorized: set<string>,
                              wiki: string, kind: string, pattern: string, validRegex: string -> bool)
    requires sender != [] && '@' in sender && channel != nickname
    requires ' ' !in wiki && ' ' !in kind
    requires kind in KnownKinds && kind != "all" && validRegex(pattern)
    ensures var c := Route(sender, channel, "!stalk " + wiki + " " + kind + " " + pattern, nickname, authorized);
      c.Stalk? && !c.ignore && !c.remove
      && ParseRule(c.params, validRegex) == Parsed(wiki, kind, pattern)
  {
    var text := "stalk " + wiki + " " + kind + " " + pattern;
    assert "!" + text == "!stalk " + wiki + " " + kind + " " + pattern;
    StalkWords(wiki, kind, pattern);
    RoutesStalk(sender, channel, text, nickname, authorized);
    assert (["stalk", wiki, kind] + SplitOn(pattern, ' '))[1..] == [wiki, kind] + SplitOn(pattern, ' ');
    ParsesStalkWords(wiki, kind, pattern, validRegex);
  }

  /** The words after `stalk` give back the wiki, the type and the whole pattern. */
  lemma ParsesStalkWords(wiki: string, kind: string, pattern: string, validRegex: string -> bool)
    requires kind in KnownKinds && kind != "all" && validRegex(pattern)
    ensures ParseRule([wiki, kind] + SplitOn(pattern, ' '), validRegex) == Parsed(wiki, kind, pattern)
  {
    var params := [wiki, kind] + SplitOn(pattern, ' ');
    assert params[2..] == SplitOn(pattern, ' ');
    JoinSplit(pattern, ' ');
  }
}
