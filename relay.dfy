/** The two kinds of IRC connection and the database they share. A feed
    connection (`Snatch`) reads the recent-changes channels and hands each
    matching event to every admin connection (`Snitch`), which reports it
    and takes commands. What a connection sends to its server is recorded
    in `sent`; the channel sets change only when the server confirms a join
    or part through the `Joined`/`Left` callbacks. */
module Relay {
  import opened Strings
  import opened Formatting
  import opened Model
  import opened Engine
  import opened Reconcile
  import opened Commands

  /** The sqlite database: the `rules` table (its UNIQUE constraint over
      all five columns makes it a set) and the `channels` table. */
  class Database {
    var rules: set<Rule>
    var channels: set<string>

    constructor (rules: set<Rule>, channels: set<string>)
      ensures this.rules == rules && this.channels == channels
    {
      this.rules := rules;
      this.channels := channels;
    }
  }

  /** `match = DIFF_RE.match(line) or ACTION_RE.match(line)`: the edit
      parse is preferred. */
  function ParseFeedLine(line: string, parseEdit: string -> Option<Event>, parseAction: string -> Option<Event>): (r: Option<Event>)
    ensures parseEdit(line).Some? ==> r == parseEdit(line)
    ensures parseEdit(line).None? ==> r == parseAction(line)
    ensures r.None? <==> parseEdit(line).None? && parseAction(line).None?
    ensures r.Some? ==> r == parseEdit(line) || r == parseAction(line)
  {
    match parseEdit(line)
    case Some(e) => Some(e)
    case None => parseAction(line)
  }

  /** The channel sets of the admin connections, in connection order. */
  function ChannelsOf(snitches: seq<Snitch>): (r: seq<set<string>>)
    reads set s | s in snitches
    ensures |r| == |snitches|
    ensures forall k :: 0 <= k < |snitches| ==> r[k] == snitches[k].channels
  {
    if snitches == [] then [] else [snitches[0].channels] + ChannelsOf(snitches[1..])
  }

  /** What each admin connection has sent so far. */
  function SentOf(snitches: seq<Snitch>): (r: seq<seq<Line>>)
    reads set s | s in snitches
    ensures |r| == |snitches|
    ensures forall k :: 0 <= k < |snitches| ==> r[k] == snitches[k].sent
  {
    if snitches == [] then [] else [snitches[0].sent] + SentOf(snitches[1..])
  }

  /** Since `before`, the feed connection `s` has sent exactly one sync
      against the rule table `rules`. */
  /** Two appends in a row leave the first part in front of both. */
  lemma AppendTwice<T>(a: seq<T>, b: seq<T>, c: seq<T>)
    ensures |(a + b) + c| >= |a| && ((a + b) + c)[..|a|] == a && ((a + b) + c)[|a|..] == b + c
  {
    assert ((a + b) + c)[|a|..] == b + c;
  }

  ghost predicate Resynced(s: Snatch, before: seq<Line>, rules: set<Rule>)
    reads s
  {
    |s.sent| >= |before| && s.sent[..|before|] == before && IsSync(s.sent[|before|..], s.channels, Desired(rules))
  }

  /** An admin connection. */
  class Snitch {
    const nickname: string
    var channels: set<string>
    var sent: seq<Line>

    /** `connectionMade`: no channel joined, nothing sent. */
    constructor (nickname: string)
      ensures this.nickname == nickname && channels == {} && sent == []
    {
      this.nickname := nickname;
      channels := {};
      sent := [];
    }

    /** `signedOn`: every channel of the `channels` table is added to the
        set and joined; `rows` is the order in which the table returns them. */
    method SignedOn(db: Database, rows: seq<string>)
      requires Enumerates(rows, db.channels)
      modifies this
      ensures channels == old(channels) + db.channels
      ensures sent == old(sent) + JoinLines(rows)
    {
      var i := 0;
      while i < |rows|
        invariant 0 <= i <= |rows|
        invariant channels == old(channels) + set x | x in rows[..i]
        invariant sent == old(sent) + JoinLines(rows[..i])
      {
        assert rows[..i + 1] == rows[..i] + [rows[i]];
        assert JoinLines(rows[..i + 1]) == JoinLines(rows[..i]) + [JoinCmd(rows[i])];
        channels := channels + {rows[i]};
        sent := sent + [JoinCmd(rows[i])];
        i := i + 1;
      }
      assert rows[..i] == rows;
    }

    /** The server confirmed a join. */
    method Joined(channel: string)
      modifies this
      ensures channels == old(channels) + {channel} && sent == old(sent)
    {
      channels := channels + {channel};
    }

    /** The server confirmed a part. */
    method Left(channel: string)
      modifies this
      ensures channels == old(channels) - {channel} && sent == old(sent)
    {
      channels := channels - {channel};
    }

    /** `tattle(rule, diff)`: reports the event to the rule's channel when
        this connection is in it. The event is returned because the source
        fills in an empty edit summary in the shared dictionary, which the
        later rules of the same loop then see. */
    method Tattle(rule: Rule, diff: Event) returns (after: Event)
      modifies this
      ensures channels == old(channels)
      ensures var t := Tattled(old(channels), rule, diff); after == t.0 && sent == old(sent) + t.1
    {
      if rule.channel !in channels {
        return diff;
      }
      after := diff;
      if after.Edit? && after.summary == [] {
        after := WithPlaceholder(after);
      }
      sent := sent + [Msg(rule.channel, Notification(rule, after))];
    }

    /** `updateRules`: validate, change the table, reply, and resynchronise
        every feed connection unless the command was rejected. */
    method UpdateRules(channel: string, params: seq<string>, ignore: bool, remove: bool,
                       db: Database, snatches: seq<Snatch>, validRegex: string -> bool)
      requires Distinct(snatches)
      modifies this, db, snatches
      ensures var u := UpdateStore(old(db.rules), channel, params, ignore, remove, validRegex);
        db.rules == u.rules && sent == old(sent) + [Msg(channel, u.reply)]
      ensures db.channels == old(db.channels) && channels == old(channels)
      ensures forall i :: 0 <= i < |snatches| ==>
        snatches[i].channels == old(snatches[i].channels) && snatches[i].stopped == old(snatches[i].stopped)
      ensures forall i :: 0 <= i < |snatches| ==>
        if UpdateStore(old(db.rules), channel, params, ignore, remove, validRegex).resync
        then Resynced(snatches[i], old(snatches[i].sent), db.rules)
        else snatches[i].sent == old(snatches[i].sent)
    {
      var u := UpdateStore(db.rules, channel, params, ignore, remove, validRegex);
      db.rules := u.rules;
      sent := sent + [Msg(channel, u.reply)];
      if u.resync {
        SyncAll(snatches, db);
      }
    }

    /** `privmsg`: one message to the admin connection. `listed` is the
        order in which the table returns this channel's rules for `!list`;
        `authorized` is the configured set of trusted hostmasks. */
    method Privmsg(sender: string, channel: string, message: string, db: Database, snatches: seq<Snatch>,
                   validRegex: string -> bool, authorized: set<string>, listed: seq<Rule>)
      requires Distinct(snatches)
      requires IsChannelQuery(listed, db.rules, channel)
      modifies this, db, snatches
      ensures var command := Route(sender, channel, message, nickname, authorized);
        sent == old(sent) + Replies(command, channel, listed, old(db.rules), validRegex)
        && db.rules == RulesAfter(command, channel, old(db.rules), validRegex)
        && db.channels == ChannelTableAfter(command, channel, old(db.channels))
      ensures channels == old(channels)
      ensures forall i :: 0 <= i < |snatches| ==> snatches[i].channels == old(snatches[i].channels)
      ensures var command := Route(sender, channel, message, nickname, authorized);
        forall i :: 0 <= i < |snatches| ==>
          if command.Shutdown? then snatches[i].stopped && snatches[i].sent == old(snatches[i].sent) + [QuitCmd]
          else if command.Stalk? && ParseRule(command.params, validRegex).Parsed? then
            snatches[i].stopped == old(snatches[i].stopped) && Resynced(snatches[i], old(snatches[i].sent), db.rules)
          else snatches[i].stopped == old(snatches[i].stopped) && snatches[i].sent == old(snatches[i].sent)
    {
      var command := Route(sender, channel, message, nickname, authorized);
      match command
      case NoAction =>
      case Fails =>
      case Stalk(params, ignore, remove) =>
        UpdateRules(channel, params, ignore, remove, db, snatches, validRegex);
      case ListRules =>
        ListTo(channel, listed);
      case Refuse =>
        sent := sent + [Msg(channel, Refusal)];
      case JoinChannel(name) =>
        db.channels := db.channels + {name};
        sent := sent + [JoinCmd(name)];
      case PartChannel =>
        db.channels := db.channels - {channel};
        sent := sent + [PartCmd(channel)];
      case Help =>
        sent := sent + [Msg(channel, HelpText)];
      case Shutdown =>
        sent := sent + [QuitCmd];
        QuitAll(snatches);
      case Raw(line) =>
        sent := sent + [RawCmd(line)];
    }

    /** `!list`: one message per rule of the channel, in table order. */
    method ListTo(channel: string, listed: seq<Rule>)
      modifies this
      ensures sent == old(sent) + ListReplies(listed, channel) && channels == old(channels)
    {
      var i := 0;
      while i < |listed|
        invariant 0 <= i <= |listed| && channels == old(channels)
        invariant sent == old(sent) + ListReplies(listed[..i], channel)
      {
        assert ListReplies(listed[..i + 1], channel) == ListReplies(listed[..i], channel) + [Msg(channel, Listing(listed[i]))];
        sent := sent + [Msg(channel, Listing(listed[i]))];
        i := i + 1;
      }
      assert listed[..i] == listed;
    }
  }

  /** `snatch.syncChannels()` for every feed connection, in order. */
  method SyncAll(snatches: seq<Snatch>, db: Database)
    requires Distinct(snatches)
    modifies snatches
    ensures forall k :: 0 <= k < |snatches| ==>
      snatches[k].channels == old(snatches[k].channels) && snatches[k].stopped == old(snatches[k].stopped)
      && Resynced(snatches[k], old(snatches[k].sent), db.rules)
  {
    var i := 0;
    while i < |snatches|
      invariant 0 <= i <= |snatches|
      invariant forall k :: 0 <= k < |snatches| ==>
        snatches[k].channels == old(snatches[k].channels) && snatches[k].stopped == old(snatches[k].stopped)
      invariant forall k :: i <= k < |snatches| ==> snatches[k].sent == old(snatches[k].sent)
      invariant forall k :: 0 <= k < i ==> Resynced(snatches[k], old(snatches[k].sent), db.rules)
    {
      snatches[i].SyncChannels(db);
      i := i + 1;
    }
  }

  /** `snatch.quit()` for every feed connection, in order. */
  method QuitAll(snatches: seq<Snatch>)
    requires Distinct(snatches)
    modifies snatches
    ensures forall k :: 0 <= k < |snatches| ==>
      snatches[k].stopped && snatches[k].sent == old(snatches[k].sent) + [QuitCmd]
      && snatches[k].channels == old(snatches[k].channels)
  {
    var i := 0;
    while i < |snatches|
      invariant 0 <= i <= |snatches|
      invariant forall k :: 0 <= k < |snatches| ==> snatches[k].channels == old(snatches[k].channels)
      invariant forall k :: 0 <= k < i ==> snatches[k].stopped && snatches[k].sent == old(snatches[k].sent) + [QuitCmd]
      invariant forall k :: i <= k < |snatches| ==> snatches[k].sent == old(snatches[k].sent)
    {
      snatches[i].Quit();
      i := i + 1;
    }
  }

  /** What the admin connection sends for a command. */
  function Replies(command: Command, channel: string, listed: seq<Rule>, rules: set<Rule>, validRegex: string -> bool): seq<Line> {
    match command
    case NoAction => []
    case Fails => []
    case Stalk(params, ignore, remove) => [Msg(channel, UpdateStore(rules, channel, params, ignore, remove, validRegex).reply)]
    case ListRules => ListReplies(listed, channel)
    case Refuse => [Msg(channel, Refusal)]
    case JoinChannel(name) => [JoinCmd(name)]
    case PartChannel => [PartCmd(channel)]
    case Help => [Msg(channel, HelpText)]
    case Shutdown => [QuitCmd]
    case Raw(line) => [RawCmd(line)]
  }

  /** The rule table after a command: only the four rule commands touch it. */
  function RulesAfter(command: Command, channel: string, rules: set<Rule>, validRegex: string -> bool): set<Rule> {
    if command.Stalk? then UpdateStore(rules, channel, command.params, command.ignore, command.remove, validRegex).rules
    else rules
  }

  /** The channel table after a command: `!join` adds its argument, `!part`
      removes the channel it is said in. */
  function ChannelTableAfter(command: Command, channel: string, channels: set<string>): set<string> {
    match command
    case JoinChannel(name) => channels + {name}
    case PartChannel => channels - {channel}
    case _ => channels
  }

  /** A feed connection. */
  class Snatch {
    var channels: set<string>
    var sent: seq<Line>
    /** Set by `quit`: the factory stops reconnecting and the connection is closed. */
    var stopped: bool

    /** `connectionMade`: no channel joined, nothing sent. */
    constructor ()
      ensures channels == {} && sent == [] && !stopped
    {
      channels := {};
      sent := [];
      stopped := false;
    }

    /** The server confirmed a join. */
    method Joined(channel: string)
      modifies this
      ensures channels == old(channels) + {channel} && sent == old(sent) && stopped == old(stopped)
    {
      channels := channels + {channel};
    }

    /** The server confirmed a part. */
    method Left(channel: string)
      modifies this
      ensures channels == old(channels) - {channel} && sent == old(sent) && stopped == old(stopped)
    {
      channels := channels - {channel};
    }

    /** `syncChannels`: join every feed channel some rule needs and this
        connection is not in, then leave every channel no rule needs. The
        channel set itself waits for the callbacks. */
    method SyncChannels(db: Database)
      modifies this
      ensures channels == old(channels) && stopped == old(stopped)
      ensures Resynced(this, old(sent), db.rules)
    {
      ghost var before := sent;
      var desired := Desired(db.rules);
      ghost var joins := SendJoins(desired - channels);
      ghost var parts := SendParts(channels - desired);
      AppendTwice(before, JoinLines(joins), PartLines(parts));
      SyncFrom(joins, parts, channels, desired);
    }

    /** Joins every channel of `names`, in set order. */
    method SendJoins(names: set<string>) returns (ghost order: seq<string>)
      modifies this
      ensures Enumerates(order, names) && sent == old(sent) + JoinLines(order)
      ensures channels == old(channels) && stopped == old(stopped)
    {
      order := [];
      var todo := names;
      while todo != {}
        invariant todo <= names && Enumerates(order, names - todo)
        invariant sent == old(sent) + JoinLines(order)
        invariant channels == old(channels) && stopped == old(stopped)
        decreases |todo|
      {
        var c :| c in todo;
        sent := sent + [JoinCmd(c)];
        EnumeratesStep(order, names, todo, c);
        assert JoinLines(order + [c]) == JoinLines(order) + [JoinCmd(c)];
        order := order + [c];
        todo := todo - {c};
      }
    }

    /** Leaves every channel of `names`, in set order. */
    method SendParts(names: set<string>) returns (ghost order: seq<string>)
      modifies this
      ensures Enumerates(order, names) && sent == old(sent) + PartLines(order)
      ensures channels == old(channels) && stopped == old(stopped)
    {
      order := [];
      var todo := names;
      while todo != {}
        invariant todo <= names && Enumerates(order, names - todo)
        invariant sent == old(sent) + PartLines(order)
        invariant channels == old(channels) && stopped == old(stopped)
        decreases |todo|
      {
        var c :| c in todo;
        sent := sent + [PartCmd(c)];
        EnumeratesStep(order, names, todo, c);
        assert PartLines(order + [c]) == PartLines(order) + [PartCmd(c)];
        order := order + [c];
        todo := todo - {c};
      }
    }

    /** `signedOn` */
    method SignedOn(db: Database)
      modifies this
      ensures channels == old(channels) && stopped == old(stopped)
      ensures Resynced(this, old(sent), db.rules)
    {
      SyncChannels(db);
    }

    /** `quit`: QUIT, stop reconnecting, close. */
    method Quit()
      modifies this
      ensures sent == old(sent) + [QuitCmd] && stopped && channels == old(channels)
    {
      sent := sent + [QuitCmd];
      stopped := true;
    }

    /** `privmsg` on a feed channel: strip the formatting, parse the line as
        an edit or else a log action, and run the rule loop. `rows` is the
        order in which the table returns the rules of this channel's wiki,
        ignore rules first; `fm` is the anchored case-insensitive match of
        a rule pattern. Every admin connection gets exactly the lines the
        rule loop specifies for it. */
    method Privmsg(channel: string, message: string, snitches: seq<Snitch>, db: Database,
                   parseEdit: string -> Option<Event>, parseAction: string -> Option<Event>,
                   fm: (string, string) -> bool, rows: seq<Rule>)
      requires Distinct(snitches)
      requires IsWikiQuery(rows, db.rules, WikiOf(channel))
      modifies snitches
      ensures forall k :: 0 <= k < |snitches| ==> snitches[k].channels == old(snitches[k].channels)
      ensures var parsed := ParseFeedLine(StripFormatting(message), parseEdit, parseAction);
        forall k :: 0 <= k < |snitches| ==>
          snitches[k].sent == old(snitches[k].sent)
            + (if parsed.None? then [] else Outcome(rows, parsed.value, ChannelsOf(snitches), fm)[k])
    {
      var cleaned := StripFormatting(message);
      var parsed := ParseFeedLine(cleaned, parseEdit, parseAction);
      if parsed.None? {
        return;
      }
      ghost var joined := ChannelsOf(snitches);
      ghost var base := SentOf(snitches);
      RunRules(rows, parsed.value, snitches, fm, joined, base);
      assert ChannelsOf(snitches) == joined;
    }
  }

  /** The rule loop of the feed connection's `privmsg` for one event:
      each rule in order is skipped when its channel is locked or it does
      not select the event, locks its channel when it is an ignore rule,
      and otherwise has every admin connection `tattle`. */
  method RunRules(rows: seq<Rule>, diff: Event, snitches: seq<Snitch>, fm: (string, string) -> bool,
                  ghost joined: seq<set<string>>, ghost base: seq<seq<Line>>)
    requires Distinct(snitches) && |joined| == |snitches| == |base|
    requires forall k :: 0 <= k < |snitches| ==> snitches[k].channels == joined[k] && snitches[k].sent == base[k]
    modifies snitches
    ensures forall k :: 0 <= k < |snitches| ==> snitches[k].channels == joined[k]
    ensures forall k :: 0 <= k < |snitches| ==> snitches[k].sent == base[k] + Outcome(rows, diff, joined, fm)[k]
  {
    ghost var p := Start(diff, |snitches|);
    assert forall k :: 0 <= k < |snitches| ==> base[k] + p.out[k] == base[k];
    var event := diff;
    var ignore: seq<string> := [];
    var i := 0;
    while i < |rows|
      invariant 0 <= i <= |rows| && |p.out| == |snitches|
      invariant Evaluate(rows[i..], joined, fm, p) == Evaluate(rows, joined, fm, Start(diff, |snitches|))
      invariant p.diff == event && p.locked == ignore
      invariant forall k :: 0 <= k < |snitches| ==> snitches[k].channels == joined[k]
      invariant forall k :: 0 <= k < |snitches| ==> snitches[k].sent == base[k] + p.out[k]
    {
      assert rows[i..][1..] == rows[i + 1..];
      event, ignore, p := ApplyRule(rows[i], event, snitches, ignore, fm, joined, base, p);
      i := i + 1;
    }
    assert rows[i..] == [];
  }

  /** One turn of the rule loop. */
  method ApplyRule(rule: Rule, diff: Event, snitches: seq<Snitch>, ignore: seq<string>, fm: (string, string) -> bool,
                   ghost joined: seq<set<string>>, ghost base: seq<seq<Line>>, ghost p: Pass)
      returns (after: Event, locked: seq<string>, ghost q: Pass)
    requires Distinct(snitches) && |joined| == |snitches| == |p.out| == |base|
    requires p.diff == diff && p.locked == ignore
    requires forall k :: 0 <= k < |snitches| ==> snitches[k].channels == joined[k]
    requires forall k :: 0 <= k < |snitches| ==> snitches[k].sent == base[k] + p.out[k]
    modifies snitches
    ensures q == Step(rule, joined, fm, p) && after == q.diff && locked == q.locked
    ensures forall k :: 0 <= k < |snitches| ==> snitches[k].channels == joined[k]
    ensures forall k :: 0 <= k < |snitches| ==> snitches[k].sent == base[k] + q.out[k]
  {
    if rule.channel in ignore || !RuleMatches(rule, diff, fm) {
      after, locked, q := diff, ignore, p;
    } else if rule.ignore {
      after, locked := diff, ignore + [rule.channel];
      q := p.(locked := locked);
    } else {
      after, locked, q := TattleAll(rule, diff, snitches, ignore, joined, base, p);
    }
  }

  /** The inner loop of the feed connection's `privmsg` for a matching
      notify rule: every admin connection, in order, is asked to `tattle`,
      and the rule's channel is locked after each. `p` is where the rule
      loop stands. */
  method TattleAll(rule: Rule, diff: Event, snitches: seq<Snitch>, ignore: seq<string>,
                   ghost joined: seq<set<string>>, ghost base: seq<seq<Line>>, ghost p: Pass)
      returns (after: Event, locked: seq<string>, ghost q: Pass)
    requires Distinct(snitches) && |joined| == |snitches| == |p.out| == |base|
    requires p.diff == diff && p.locked == ignore
    requires forall k :: 0 <= k < |snitches| ==> snitches[k].channels == joined[k]
    requires forall k :: 0 <= k < |snitches| ==> snitches[k].sent == base[k] + p.out[k]
    modifies snitches
    ensures q == FanOut(rule, joined, 0, p) && after == q.diff && locked == q.locked
    ensures forall k :: 0 <= k < |snitches| ==> snitches[k].channels == joined[k]
    ensures forall k :: 0 <= k < |snitches| ==> snitches[k].sent == base[k] + q.out[k]
  {
    after, locked, q := diff, ignore, p;
    var j := 0;
    while j < |snitches|
      invariant 0 <= j <= |snitches| && |q.out| == |snitches|
      invariant FanOut(rule, joined, j, q) == FanOut(rule, joined, 0, p)
      invariant q.diff == after && q.locked == locked
      invariant forall k :: 0 <= k < |snitches| ==> snitches[k].channels == joined[k]
      invariant forall k :: 0 <= k < |snitches| ==> snitches[k].sent == base[k] + q.out[k]
    {
      ghost var t := Tattled(joined[j], rule, after);
      ghost var q' := Pass(t.0, locked + [rule.channel], q.out[j := q.out[j] + t.1]);
      assert FanOut(rule, joined, j, q) == FanOut(rule, joined, j + 1, q');
      after := snitches[j].Tattle(rule, after);
      assert snitches[j].sent == base[j] + q'.out[j];
      forall k | 0 <= k < |snitches| && k != j ensures snitches[k].sent == base[k] + q'.out[k] {
        assert snitches[k] != snitches[j];
      }
      locked := locked + [rule.channel];
      q := q';
      j := j + 1;
    }
  }
}
