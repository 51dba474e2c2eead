/** The values the relay works on: stored rules, parsed feed events, the
    lines a connection sends, the rule predicate by type and the text of a
    notification. */
module Model {
  import opened Strings

  datatype Option<T> = None | Some(value: T)

  /** One row of the `rules` table; `kind` is the `type` column, kept as
      free text because the engine also meets types it does not know. */
  datatype Rule = Rule(wiki: string, kind: string, pattern: string, channel: string, ignore: bool)

  /** The group dictionary of a parsed feed line: an edit (the diff
      pattern) or a log action (the action pattern). */
  datatype Event =
    | Edit(page: string, patrolled: string, newPage: string, minor: string, bot: string,
           url: string, user: string, size: string, summary: string)
    | LogAction(log: string, user: string, summary: string)

  /** What a connection sends to its server, recorded in order. */
  datatype Line =
    | Msg(target: string, text: string)
    | JoinCmd(target: string)
    | PartCmd(target: string)
    | RawCmd(text: string)
    | QuitCmd

  /** The rule types the store accepts from commands. */
  const KnownKinds: set<string> := {"summary", "user", "page", "log", "all"}

  /** Whether `rule` selects `diff`. `fm(pattern, text)` stands for the
      anchored, case-insensitive regular-expression match of the pattern
      against the whole text. A type outside the known five has no branch
      of its own and therefore selects every event. */
  predicate RuleMatches(rule: Rule, diff: Event, fm: (string, string) -> bool) {
    if rule.kind == "all" then true
    else if rule.kind == "summary" then fm(rule.pattern, diff.summary)
    else if rule.kind == "user" then fm(rule.pattern, diff.user)
    else if rule.kind == "page" then
      (if diff.Edit? then fm(rule.pattern, diff.page) else fm(rule.pattern, diff.summary))
    else if rule.kind == "log" then diff.LogAction? && Lower(rule.pattern) == diff.log
    else true
  }

  /** Only the pattern of a log rule is lower-cased, so a log type that
      contains a capital letter is never selected by any log rule. */
  lemma LogRuleMissesCapitalisedType(rule: Rule, diff: Event, fm: (string, string) -> bool, i: nat)
    requires rule.kind == "log" && diff.LogAction?
    requires i < |diff.log| && IsUpper(diff.log[i])
    ensures !RuleMatches(rule, diff, fm)
  {
  }

  // ---------------------------------------------------------------------
  // Notification text
  // ---------------------------------------------------------------------

  /** Shown in place of an empty edit summary. */
  const NoSummary: string := "[none]"

  /** The characters `strip('.org')` removes from both ends of a wiki name. */
  const OrgChars: set<char> := {'.', 'o', 'r', 'g'}

  /** The event after `tattle` has replaced an empty edit summary: only an
      empty edit summary is touched, and afterwards no edit summary is empty. */
  function WithPlaceholder(diff: Event): (d: Event)
    ensures d.Edit? <==> diff.Edit?
    ensures d.Edit? ==> d.summary != []
    ensures diff.Edit? && diff.summary == [] ==>
      d == Edit(diff.page, diff.patrolled, diff.newPage, diff.minor, diff.bot, diff.url, diff.user, diff.size, NoSummary)
    ensures !(diff.Edit? && diff.summary == []) ==> d == diff
  {
    match diff
    case Edit(page, patrolled, newPage, minor, bot, url, user, size, summary) =>
      if summary == [] then Edit(page, patrolled, newPage, minor, bot, url, user, size, NoSummary)
      else diff
    case LogAction(_, _, _) => diff
  }

  /** The text `tattle` sends for `diff` under `rule` (the summary already
      replaced where needed). */
  function Notification(rule: Rule, diff: Event): string {
    match diff
    case Edit(page, _, _, _, _, url, user, _, summary) =>
      JoinWith("; ", ["[[" + page + "]]", user, summary, SecureScheme(url)])
    case LogAction(log, user, summary) =>
      user + " " + summary + "; https://" + StripChars(rule.wiki, OrgChars) + ".org/wiki/Special:Log/" + log
  }

  /** One `tattle(rule, diff)` on a connection joined to `joined`: the
      event as it is afterwards and the lines it sends. */
  function Tattled(joined: set<string>, rule: Rule, diff: Event): (res: (Event, seq<Line>))
    ensures |res.1| <= 1
    ensures res.1 != [] <==> rule.channel in joined
    ensures forall l :: l in res.1 ==> l.Msg? && l.target == rule.channel
    ensures res.0 == if rule.channel in joined then WithPlaceholder(diff) else diff
  {
    if rule.channel !in joined then (diff, [])
    else
      var d := WithPlaceholder(diff);
      (d, [Msg(rule.channel, Notification(rule, d))])
  }

  /** An edit notification is the four fields joined by "; ", never with an
      empty summary and never with an insecure scheme marker in the url. */
  lemma EditNotification(joined: set<string>, rule: Rule, diff: Event)
    requires diff.Edit? && rule.channel in joined
    ensures var s := if diff.summary == [] then NoSummary else diff.summary;
      var u := SecureScheme(diff.url);
      Tattled(joined, rule, diff).1
        == [Msg(rule.channel, "[[" + diff.page + "]]; " + diff.user + "; " + s + "; " + u)]
      && s != [] && !Contains(u, Http)
      && (!Contains(diff.url, Http) ==> u == diff.url)
  {
    var d := WithPlaceholder(diff);
    var u := SecureScheme(diff.url);
    var parts := ["[[" + d.page + "]]", d.user, d.summary, u];
    assert parts[1..] == [d.user, d.summary, u];
    assert parts[1..][1..] == [d.summary, u];
    assert parts[1..][1..][1..] == [u];
    assert JoinWith("; ", [u]) == u;
    assert JoinWith("; ", [d.summary, u]) == d.summary + "; " + u;
    assert JoinWith("; ", [d.user, d.summary, u]) == d.user + "; " + d.summary + "; " + u;
    assert Notification(rule, d) == "[[" + d.page + "]]; " + d.user + "; " + d.summary + "; " + u;
    SecureSchemeComplete(diff.url);
    if !Contains(diff.url, Http) {
      SecureSchemeKeepsSecureUrl(diff.url);
    }
  }

  /** A log action is reported as user, summary and a link to the log of
      that type on the rule's wiki, the wiki name stripped of the characters
      of ".org" at both ends; the summary is sent as it is, even when empty. */
  lemma LogNotification(joined: set<string>, rule: Rule, log: string, user: string, summary: string)
    requires rule.channel in joined
    ensures var w := StripChars(rule.wiki, OrgChars);
      Tattled(joined, rule, LogAction(log, user, summary))
        == (LogAction(log, user, summary),
            [Msg(rule.channel, user + " " + summary + "; https://" + w + ".org/wiki/Special:Log/" + log)])
  {
  }

  /** For a name ending in ".org" whose first and last remaining
      characters are outside ".org", the log link names the wiki itself. */
  lemma {:induction false} LogLinkForPlainName(w: string)
    requires w != [] && w[0] !in OrgChars && w[|w| - 1] !in OrgChars
    ensures StripChars(w + ".org", OrgChars) == w
  {
    var s := w + ".org";
    assert LStrip(s, OrgChars) == s;
    assert s[..|s| - 1] == w + ".or";
    assert (w + ".or")[..|w| + 2] == w + ".o";
    assert (w + ".o")[..|w| + 1] == w + ".";
    assert (w + ".")[..|w|] == w;
  }

  /** Leading characters that all belong to the set are dropped. */
  lemma {:induction false} LStripDropsPrefix(p: string, t: string, cs: set<char>)
    requires forall k :: 0 <= k < |p| ==> p[k] in cs
    ensures LStrip(p + t, cs) == LStrip(t, cs)
    decreases |p|
  {
    if p == [] {
      assert p + t == t;
    } else {
      assert (p + t)[1..] == p[1..] + t;
      LStripDropsPrefix(p[1..], t, cs);
    }
  }

  /** The strip works on characters, not on the suffix: letters of ".org"
      at the start of the name are dropped as well. */
  lemma LogLinkDropsLeadingOrgLetters(code: string, w: string)
    requires forall k :: 0 <= k < |code| ==> code[k] in OrgChars
    requires w != [] && w[0] !in OrgChars && w[|w| - 1] !in OrgChars
    ensures StripChars(code + w + ".org", OrgChars) == w
  {
    assert code + w + ".org" == code + (w + ".org");
    LStripDropsPrefix(code, w + ".org", OrgChars);
    assert LStrip(w + ".org", OrgChars) == w + ".org";
    LogLinkForPlainName(w);
  }

  /** So the log link for the Romanian Wikipedia points at "wikipedia.org". */
  lemma LogLinkForRomanianWikipedia(wiki: string)
    requires wiki == "ro.wikipedia.org"
    ensures StripChars(wiki, OrgChars) == "wikipedia"
  {
    var code, w := "ro.", "wikipedia";
    assert wiki == code + w + ".org";
    LogLinkDropsLeadingOrgLetters(code, w);
  }

  // ---------------------------------------------------------------------
  // The rule list the engine reads
  // ---------------------------------------------------------------------

  predicate Distinct<T(==)>(s: seq<T>) {
    forall i, j :: 0 <= i < j < |s| ==> s[i] != s[j]
  }

  /** Every ignore rule comes before every notify rule (`ORDER BY ignore DESC`). */
  predicate IgnoreFirst(rules: seq<Rule>) {
    forall i, j :: 0 <= i < j < |rules| && rules[j].ignore ==> rules[i].ignore
  }

  /** `rows` is what `SELECT * FROM rules WHERE wiki=? ORDER BY ignore DESC`
      can return for `store`: each rule of that wiki once, ignore rules first. */
  ghost predicate IsWikiQuery(rows: seq<Rule>, store: set<Rule>, wiki: string) {
    (forall r :: r in rows <==> r in store && r.wiki == wiki) && Distinct(rows) && IgnoreFirst(rows)
  }

  /** `channel[1:]`: the wiki a feed channel reports on. */
  function WikiOf(channel: string): string {
    if channel == [] then [] else channel[1..]
  }
}
