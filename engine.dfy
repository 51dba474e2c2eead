/** The rule matching loop of the feed connection (`Snatch.privmsg`),
    as a function of the ordered rule list, the event and the channels
    each fan-out connection has joined, and what it guarantees. */
module Engine {
  import opened Strings
  import opened Model

  /** Where one evaluation of the rule list stands: the event as later rules
      see it (`tattle` may have filled in its summary), the locked channels
      (the loop's `ignore` list) and the lines each fan-out connection has
      sent so far for this event. */
  datatype Pass = Pass(diff: Event, locked: seq<string>, out: seq<seq<Line>>)

  /** Before the first rule: nothing locked, nothing sent on `n` connections. */
  function Start(diff: Event, n: nat): Pass {
    Pass(diff, [], seq(n, k => []))
  }

  /** `n` copies of `c`. */
  function Copies(c: string, n: nat): (s: seq<string>)
    ensures |s| == n && forall i :: 0 <= i < n ==> s[i] == c
  {
    if n == 0 then [] else [c] + Copies(c, n - 1)
  }

  /** The inner loop for a matching notify rule: every fan-out connection
      from the `k`-th on that has joined the rule's channel gets one
      message, all with the text of the event as filled in by the first
      `tattle`, and the channel is locked once per connection. */
  function FanOut(rule: Rule, joined: seq<set<string>>, k: nat, p: Pass): (q: Pass)
    requires k <= |joined| == |p.out|
    ensures |q.out| == |joined|
    ensures q.locked == p.locked + Copies(rule.channel, |joined| - k)
    ensures forall j :: 0 <= j < |joined| ==> p.out[j] <= q.out[j]
    decreases |joined| - k
  {
    if k == |joined| then
      assert p.locked + Copies(rule.channel, 0) == p.locked;
      p
    else
      var t := Tattled(joined[k], rule, p.diff);
      var p' := Pass(t.0, p.locked + [rule.channel], p.out[k := p.out[k] + t.1]);
      assert p'.locked + Copies(rule.channel, |joined| - (k + 1)) == p.locked + Copies(rule.channel, |joined| - k);
      FanOut(rule, joined, k + 1, p')
  }

  /** What the inner loop sends: each connection from the `k`-th on that has
      joined the rule's channel gets exactly one message, all with the text
      of the event as filled in by the first `tattle`; the others get nothing. */
  lemma {:induction false} FanOutSends(rule: Rule, joined: seq<set<string>>, k: nat, p: Pass)
    requires k <= |joined| == |p.out|
    ensures forall j :: 0 <= j < |joined| ==>
      FanOut(rule, joined, k, p).out[j] == p.out[j] + (if k <= j && rule.channel in joined[j]
                              then [Msg(rule.channel, Notification(rule, WithPlaceholder(p.diff)))] else [])
    decreases |joined| - k
  {
    if k < |joined| {
      var t := Tattled(joined[k], rule, p.diff);
      var p' := Pass(t.0, p.locked + [rule.channel], p.out[k := p.out[k] + t.1]);
      assert WithPlaceholder(t.0) == WithPlaceholder(p.diff);
      FanOutSends(rule, joined, k + 1, p');
    }
  }

  /** `q` continues `p`: every connection's lines and the lock list only grow. */
  ghost predicate Extends(p: Pass, q: Pass) {
    |q.out| == |p.out| && (forall j :: 0 <= j < |p.out| ==> p.out[j] <= q.out[j]) && p.locked <= q.locked
  }

  /** One turn of the outer loop; it only appends. */
  function Step(rule: Rule, joined: seq<set<string>>, fm: (string, string) -> bool, p: Pass): (q: Pass)
    requires |p.out| == |joined|
    ensures |q.out| == |joined|
    ensures Extends(p, q)
  {
    if rule.channel in p.locked || !RuleMatches(rule, p.diff, fm) then p
    else if rule.ignore then p.(locked := p.locked + [rule.channel])
    else FanOut(rule, joined, 0, p)
  }

  /** The outer loop over the remaining rules; it only appends. */
  function Evaluate(rules: seq<Rule>, joined: seq<set<string>>, fm: (string, string) -> bool, p: Pass): (q: Pass)
    requires |p.out| == |joined|
    ensures |q.out| == |joined|
    ensures Extends(p, q)
    decreases |rules|
  {
    if rules == [] then p
    else
      var s := Step(rules[0], joined, fm, p);
      var q := Evaluate(rules[1..], joined, fm, s);
      ExtendsTransitive(p, s, q);
      q
  }

  /** The outer loop over one rule is one turn. */
  lemma EvaluateOne(r: Rule, joined: seq<set<string>>, fm: (string, string) -> bool, p: Pass)
    requires |p.out| == |joined|
    ensures Evaluate([r], joined, fm, p) == Step(r, joined, fm, p)
  {
    assert [r][1..] == [];
  }

  /** The outer loop over two rules is two turns. */
  lemma EvaluateTwo(a: Rule, b: Rule, joined: seq<set<string>>, fm: (string, string) -> bool, p: Pass)
    requires |p.out| == |joined|
    ensures Evaluate([a, b], joined, fm, p) == Step(b, joined, fm, Step(a, joined, fm, p))
  {
    assert [a, b][1..] == [b];
    EvaluateOne(b, joined, fm, Step(a, joined, fm, p));
  }

  lemma ExtendsTransitive(p: Pass, s: Pass, q: Pass)
    requires Extends(p, s) && Extends(s, q)
    ensures Extends(p, q)
  {
    forall j | 0 <= j < |p.out| ensures p.out[j] <= q.out[j] {
      assert p.out[j] <= s.out[j] <= q.out[j];
    }
  }

  /** The lines each fan-out connection sends for one feed event. */
  function Outcome(rules: seq<Rule>, diff: Event, joined: seq<set<string>>, fm: (string, string) -> bool): (o: seq<seq<Line>>)
    ensures |o| == |joined|
    ensures forall k, l :: 0 <= k < |joined| && l in o[k] ==> l.Msg? && l.target in joined[k]
  {
    EvaluateConfined(rules, joined, fm, Start(diff, |joined|), diff, Notified(rules, diff, fm));
    Evaluate(rules, joined, fm, Start(diff, |joined|)).out
  }

  /** How many messages `lines` sends to channel `c`. */
  function Delivered(lines: seq<Line>, c: string): nat
    decreases |lines|
  {
    if lines == [] then 0
    else
      var l := lines[|lines| - 1];
      Delivered(lines[..|lines| - 1], c) + (if l.Msg? && l.target == c then 1 else 0)
  }

  lemma {:induction false} DeliveredAppend(a: seq<Line>, b: seq<Line>, c: string)
    ensures Delivered(a + b, c) == Delivered(a, c) + Delivered(b, c)
    decreases |b|
  {
    if b == [] {
      assert a + b == a;
    } else {
      var b' := b[..|b| - 1];
      assert (a + b)[..|a + b| - 1] == a + b';
      assert (a + b)[|a + b| - 1] == b[|b| - 1];
      DeliveredAppend(a, b', c);
    }
  }

  lemma {:induction false} DeliveredNone(lines: seq<Line>, c: string)
    requires forall l :: l in lines ==> !(l.Msg? && l.target == c)
    ensures Delivered(lines, c) == 0
    decreases |lines|
  {
    if lines != [] {
      var init := lines[..|lines| - 1];
      assert forall l :: l in init ==> l in lines;
      DeliveredNone(init, c);
    }
  }

  /** The lines a `tattle` adds, counted per channel. */
  lemma DeliveredByTattle(joined: set<string>, rule: Rule, diff: Event, c: string)
    ensures Delivered(Tattled(joined, rule, diff).1, c)
      == if c == rule.channel && rule.channel in joined then 1 else 0
  {
    var lines := Tattled(joined, rule, diff).1;
    if lines != [] {
      assert lines == [lines[0]];
      assert lines[..0] == [];
    }
  }

  // ---------------------------------------------------------------------
  // At most one message per channel and connection
  // ---------------------------------------------------------------------

  /** No connection has more than one message for a channel, and none for a
      channel that is not locked yet. */
  ghost predicate Sound(p: Pass) {
    forall k, c {:trigger Delivered(p.out[k], c)} :: 0 <= k < |p.out| ==>
      Delivered(p.out[k], c) <= 1 && (c !in p.locked ==> Delivered(p.out[k], c) == 0)
  }

  lemma {:induction false} FanOutSound(rule: Rule, joined: seq<set<string>>, k: nat, p: Pass)
    requires k <= |joined| == |p.out|
    requires forall j, c {:trigger Delivered(p.out[j], c)} :: 0 <= j < |joined| && c != rule.channel ==>
      Delivered(p.out[j], c) <= 1 && (c !in p.locked ==> Delivered(p.out[j], c) == 0)
    requires forall j :: 0 <= j < k ==> Delivered(p.out[j], rule.channel) <= 1
    requires forall j :: k <= j < |joined| ==> Delivered(p.out[j], rule.channel) == 0
    requires k > 0 ==> rule.channel in p.locked
    ensures Sound(FanOut(rule, joined, k, p))
    decreases |joined| - k
  {
    if k == |joined| {
      forall j, c | 0 <= j < |p.out|
        ensures Delivered(p.out[j], c) <= 1 && (c !in p.locked ==> Delivered(p.out[j], c) == 0)
      {
        if c == rule.channel {
          assert j < k;
        }
      }
    } else {
      var t := Tattled(joined[k], rule, p.diff);
      var p' := Pass(t.0, p.locked + [rule.channel], p.out[k := p.out[k] + t.1]);
      forall c ensures Delivered(p'.out[k], c) == Delivered(p.out[k], c) + (if c == rule.channel && rule.channel in joined[k] then 1 else 0) {
        DeliveredAppend(p.out[k], t.1, c);
        DeliveredByTattle(joined[k], rule, p.diff, c);
      }
      forall j, c | 0 <= j < |joined| && c != rule.channel
        ensures Delivered(p'.out[j], c) <= 1 && (c !in p'.locked ==> Delivered(p'.out[j], c) == 0)
      {
        if j != k {
          assert p'.out[j] == p.out[j];
        }
      }
      forall j | 0 <= j < k + 1 ensures Delivered(p'.out[j], rule.channel) <= 1 {
        if j != k {
          assert p'.out[j] == p.out[j];
        }
      }
      forall j | k + 1 <= j < |joined| ensures Delivered(p'.out[j], rule.channel) == 0 {
        assert p'.out[j] == p.out[j];
      }
      FanOutSound(rule, joined, k + 1, p');
    }
  }

  lemma StepSound(rule: Rule, joined: seq<set<string>>, fm: (string, string) -> bool, p: Pass)
    requires |p.out| == |joined| && Sound(p)
    ensures Sound(Step(rule, joined, fm, p))
  {
    if !(rule.channel in p.locked || !RuleMatches(rule, p.diff, fm)) && !rule.ignore {
      forall j | 0 <= j < |joined| ensures Delivered(p.out[j], rule.channel) == 0 {
        assert 0 <= j < |p.out|;
      }
      FanOutSound(rule, joined, 0, p);
    }
  }

  lemma {:induction false} EvaluateSound(rules: seq<Rule>, joined: seq<set<string>>, fm: (string, string) -> bool, p: Pass)
    requires |p.out| == |joined| && Sound(p)
    ensures Sound(Evaluate(rules, joined, fm, p))
    decreases |rules|
  {
    if rules != [] {
      StepSound(rules[0], joined, fm, p);
      EvaluateSound(rules[1..], joined, fm, Step(rules[0], joined, fm, p));
    }
  }

  /** Each fan-out connection sends at most one message per channel for
      one feed event, whatever the rules and their order. */
  lemma AtMostOncePerChannel(rules: seq<Rule>, diff: Event, joined: seq<set<string>>, fm: (string, string) -> bool)
    ensures forall k, c :: 0 <= k < |joined| ==> Delivered(Outcome(rules, diff, joined, fm)[k], c) <= 1
  {
    var p := Start(diff, |joined|);
    forall k, c | 0 <= k < |p.out| ensures Delivered(p.out[k], c) == 0 {
      assert p.out[k] == [];
    }
    EvaluateSound(rules, joined, fm, p);
    var q := Evaluate(rules, joined, fm, p);
    forall k, c | 0 <= k < |joined| ensures Delivered(Outcome(rules, diff, joined, fm)[k], c) <= 1 {
      assert Outcome(rules, diff, joined, fm) == q.out;
      assert Delivered(q.out[k], c) <= 1;
    }
  }

  // ---------------------------------------------------------------------
  // A locked channel stays locked and silent
  // ---------------------------------------------------------------------

  /** The inner loop for a rule of another channel sends nothing to `c`,
      keeps its lock and locks nothing but the rule's channel. */
  lemma {:induction false} FanOutOtherChannel(rule: Rule, joined: seq<set<string>>, k: nat, p: Pass, c: string)
    requires k <= |joined| == |p.out| && c != rule.channel
    ensures var q := FanOut(rule, joined, k, p);
      (forall j :: 0 <= j < |joined| ==> Delivered(q.out[j], c) == Delivered(p.out[j], c))
      && (c in p.locked <==> c in q.locked)
    decreases |joined| - k
  {
    if k < |joined| {
      var t := Tattled(joined[k], rule, p.diff);
      var p' := Pass(t.0, p.locked + [rule.channel], p.out[k := p.out[k] + t.1]);
      forall j | 0 <= j < |joined| ensures Delivered(p'.out[j], c) == Delivered(p.out[j], c) {
        if j == k {
          DeliveredAppend(p.out[k], t.1, c);
          DeliveredByTattle(joined[k], rule, p.diff, c);
        } else {
          assert p'.out[j] == p.out[j];
        }
      }
      FanOutOtherChannel(rule, joined, k + 1, p', c);
    }
  }

  /** The inner loop only ever adds the rule's channel to the lock list. */
  lemma {:induction false} FanOutLocks(rule: Rule, joined: seq<set<string>>, k: nat, p: Pass)
    requires k <= |joined| == |p.out|
    ensures var q := FanOut(rule, joined, k, p);
      (forall c :: c in p.locked ==> c in q.locked)
      && (k < |joined| ==> rule.channel in q.locked)
    decreases |joined| - k
  {
    if k < |joined| {
      var t := Tattled(joined[k], rule, p.diff);
      FanOutLocks(rule, joined, k + 1, Pass(t.0, p.locked + [rule.channel], p.out[k := p.out[k] + t.1]));
    }
  }

  /** One rule leaves the messages to `c` as they were when it is for
      another channel or `c` is locked, and never unlocks anything. */
  lemma StepKeeps(rule: Rule, joined: seq<set<string>>, fm: (string, string) -> bool, p: Pass, c: string)
    requires |p.out| == |joined|
    requires c in p.locked || c != rule.channel
    ensures var q := Step(rule, joined, fm, p);
      (forall j :: 0 <= j < |joined| ==> Delivered(q.out[j], c) == Delivered(p.out[j], c))
      && (c in p.locked ==> c in q.locked)
      && (c != rule.channel ==> (c in q.locked <==> c in p.locked))
  {
    if !(rule.channel in p.locked || !RuleMatches(rule, p.diff, fm)) && !rule.ignore {
      FanOutOtherChannel(rule, joined, 0, p, c);
    }
  }

  lemma {:induction false} LockedStays(rules: seq<Rule>, joined: seq<set<string>>, fm: (string, string) -> bool, p: Pass, c: string)
    requires |p.out| == |joined| && c in p.locked
    ensures var q := Evaluate(rules, joined, fm, p);
      c in q.locked && forall j :: 0 <= j < |joined| ==> Delivered(q.out[j], c) == Delivered(p.out[j], c)
    decreases |rules|
  {
    if rules != [] {
      StepKeeps(rules[0], joined, fm, p, c);
      LockedStays(rules[1..], joined, fm, Step(rules[0], joined, fm, p), c);
    }
  }

  // ---------------------------------------------------------------------
  // Ignore rules win
  // ---------------------------------------------------------------------

  lemma {:induction false} IgnoreWinsFrom(rules: seq<Rule>, joined: seq<set<string>>, fm: (string, string) -> bool, p: Pass, i: nat)
    requires |p.out| == |joined| && IgnoreFirst(rules)
    requires i < |rules| && rules[i].ignore && RuleMatches(rules[i], p.diff, fm)
    ensures forall j :: 0 <= j < |joined| ==>
      Delivered(Evaluate(rules, joined, fm, p).out[j], rules[i].channel) == Delivered(p.out[j], rules[i].channel)
    decreases |rules|
  {
    var c := rules[i].channel;
    assert rules[0].ignore;
    var q := Step(rules[0], joined, fm, p);
    assert q.out == p.out && q.diff == p.diff;
    if i == 0 {
      assert c in q.locked;
      LockedStays(rules[1..], joined, fm, q, c);
    } else {
      assert rules[1..][i - 1] == rules[i];
      IgnoreWinsFrom(rules[1..], joined, fm, q, i - 1);
    }
  }

  /** When the rule list is ordered ignore-first, an ignore rule that
      selects the event keeps its channel silent on every connection. */
  lemma IgnoreSuppresses(rules: seq<Rule>, diff: Event, joined: seq<set<string>>, fm: (string, string) -> bool, i: nat)
    requires IgnoreFirst(rules)
    requires i < |rules| && rules[i].ignore && RuleMatches(rules[i], diff, fm)
    ensures forall k :: 0 <= k < |joined| ==> Delivered(Outcome(rules, diff, joined, fm)[k], rules[i].channel) == 0
  {
    IgnoreWinsFrom(rules, joined, fm, Start(diff, |joined|), i);
  }

  // ---------------------------------------------------------------------
  // Nothing selected, nothing sent
  // ---------------------------------------------------------------------

  lemma {:induction false} NoMatchFrom(rules: seq<Rule>, joined: seq<set<string>>, fm: (string, string) -> bool, p: Pass)
    requires |p.out| == |joined|
    requires forall r :: r in rules ==> !RuleMatches(r, p.diff, fm)
    ensures Evaluate(rules, joined, fm, p) == p
    decreases |rules|
  {
    if rules != [] {
      assert Step(rules[0], joined, fm, p) == p;
      assert forall r :: r in rules[1..] ==> r in rules;
      NoMatchFrom(rules[1..], joined, fm, p);
    }
  }

  /** When no rule selects the event, no connection sends anything. */
  lemma NoMatchNoMessage(rules: seq<Rule>, diff: Event, joined: seq<set<string>>, fm: (string, string) -> bool)
    requires forall r :: r in rules ==> !RuleMatches(r, diff, fm)
    ensures forall k :: 0 <= k < |joined| ==> Outcome(rules, diff, joined, fm)[k] == []
  {
    NoMatchFrom(rules, joined, fm, Start(diff, |joined|));
  }

  /** With no fan-out connection, only ignore rules lock channels. */
  lemma {:induction false} NoConnectionLocksOnlyIgnored(rules: seq<Rule>, fm: (string, string) -> bool, p: Pass)
    requires p.out == []
    ensures forall c :: c in Evaluate(rules, [], fm, p).locked ==>
      c in p.locked || exists r :: r in rules && r.ignore && r.channel == c
    decreases |rules|
  {
    if rules != [] {
      var q := Step(rules[0], [], fm, p);
      NoConnectionLocksOnlyIgnored(rules[1..], fm, q);
      assert forall r :: r in rules[1..] ==> r in rules;
    }
  }

  // ---------------------------------------------------------------------
  // Where messages go
  // ---------------------------------------------------------------------

  /** The channels some notify rule of `rules` selects the event for, as
      given or with its summary filled in. */
  function Notified(rules: seq<Rule>, diff: Event, fm: (string, string) -> bool): set<string> {
    set r | r in rules && !r.ignore && (RuleMatches(r, diff, fm) || RuleMatches(r, WithPlaceholder(diff), fm)) :: r.channel
  }

  /** Every line sent so far is a message to a channel the connection has
      joined and that is in `notify`. */
  ghost predicate Confined(p: Pass, joined: seq<set<string>>, notify: set<string>) {
    |p.out| == |joined| &&
    forall k, l :: 0 <= k < |joined| && l in p.out[k] ==> l.Msg? && l.target in joined[k] && l.target in notify
  }

  lemma {:induction false} FanOutConfined(rule: Rule, joined: seq<set<string>>, k: nat, p: Pass, notify: set<string>)
    requires k <= |joined| && Confined(p, joined, notify) && rule.channel in notify
    ensures Confined(FanOut(rule, joined, k, p), joined, notify)
    ensures FanOut(rule, joined, k, p).diff in {p.diff, WithPlaceholder(p.diff)}
    decreases |joined| - k
  {
    if k < |joined| {
      var t := Tattled(joined[k], rule, p.diff);
      var p' := Pass(t.0, p.locked + [rule.channel], p.out[k := p.out[k] + t.1]);
      FanOutConfined(rule, joined, k + 1, p', notify);
      assert WithPlaceholder(WithPlaceholder(p.diff)) == WithPlaceholder(p.diff);
    }
  }

  lemma {:induction false} EvaluateConfined(rules: seq<Rule>, joined: seq<set<string>>, fm: (string, string) -> bool, p: Pass, d0: Event, notify: set<string>)
    requires Confined(p, joined, notify)
    requires p.diff in {d0, WithPlaceholder(d0)}
    requires Notified(rules, d0, fm) <= notify
    ensures Confined(Evaluate(rules, joined, fm, p), joined, notify)
    decreases |rules|
  {
    if rules != [] {
      var r := rules[0];
      var q := Step(r, joined, fm, p);
      assert WithPlaceholder(WithPlaceholder(d0)) == WithPlaceholder(d0);
      if !(r.channel in p.locked || !RuleMatches(r, p.diff, fm)) && !r.ignore {
        assert r.channel in Notified(rules, d0, fm);
        FanOutConfined(r, joined, 0, p, notify);
      }
      assert Notified(rules[1..], d0, fm) <= Notified(rules, d0, fm) by {
        assert forall x :: x in rules[1..] ==> x in rules;
      }
      EvaluateConfined(rules[1..], joined, fm, q, d0, notify);
    }
  }

  /** A connection only sends messages, only to channels it has joined,
      and only to channels some notify rule selects the event for (as
      given, or with the summary `tattle` filled in). */
  lemma OnlyJoinedAndNotified(rules: seq<Rule>, diff: Event, joined: seq<set<string>>, fm: (string, string) -> bool)
    ensures forall k, l :: 0 <= k < |joined| && l in Outcome(rules, diff, joined, fm)[k] ==>
      l.Msg? && l.target in joined[k] && l.target in Notified(rules, diff, fm)
  {
    EvaluateConfined(rules, joined, fm, Start(diff, |joined|), diff, Notified(rules, diff, fm));
  }

  // ---------------------------------------------------------------------
  // Exactly one message where a notify rule selects the event
  // ---------------------------------------------------------------------

  /** An event whose summary `tattle` leaves alone. */
  predicate Settled(diff: Event) {
    WithPlaceholder(diff) == diff
  }

  lemma FanOutSettled(rule: Rule, joined: seq<set<string>>, k: nat, p: Pass)
    requires k <= |joined| == |p.out| && Settled(p.diff)
    ensures var q := FanOut(rule, joined, k, p);
      q.diff == p.diff
      && (forall j :: 0 <= j < k ==> q.out[j] == p.out[j])
      && (forall j :: k <= j < |joined| ==>
            Delivered(q.out[j], rule.channel) == Delivered(p.out[j], rule.channel) + (if rule.channel in joined[j] then 1 else 0))
  {
    var q := FanOut(rule, joined, k, p);
    FanOutDiff(rule, joined, k, p);
    FanOutSends(rule, joined, k, p);
    var m := Msg(rule.channel, Notification(rule, WithPlaceholder(p.diff)));
    assert Delivered([m], rule.channel) == 1 by { assert [m][..0] == []; }
    forall j | k <= j < |joined|
      ensures Delivered(q.out[j], rule.channel) == Delivered(p.out[j], rule.channel) + (if rule.channel in joined[j] then 1 else 0)
    {
      DeliveredAppend(p.out[j], if rule.channel in joined[j] then [m] else [], rule.channel);
    }
  }

  lemma {:induction false} DeliversFrom(rules: seq<Rule>, joined: seq<set<string>>, fm: (string, string) -> bool, p: Pass, c: string, k: nat)
    requires |p.out| == |joined| && k < |joined| && c in joined[k]
    requires Settled(p.diff) && Sound(p)
    requires c in p.locked ==> Delivered(p.out[k], c) == 1
    requires forall r :: r in rules && r.ignore && r.channel == c ==> !RuleMatches(r, p.diff, fm)
    requires c in p.locked || exists r :: r in rules && !r.ignore && r.channel == c && RuleMatches(r, p.diff, fm)
    ensures Delivered(Evaluate(rules, joined, fm, p).out[k], c) == 1
    decreases |rules|
  {
    if rules != [] {
      var r0 := rules[0];
      var q := Step(r0, joined, fm, p);
      StepSound(r0, joined, fm, p);
      var fires := !(r0.channel in p.locked || !RuleMatches(r0, p.diff, fm));
      if fires && !r0.ignore {
        FanOutSettled(r0, joined, 0, p);
        FanOutLocks(r0, joined, 0, p);
      }
      assert q.diff == p.diff;
      if c in p.locked {
        StepKeeps(r0, joined, fm, p, c);
      } else if r0.channel != c {
        StepKeeps(r0, joined, fm, p, c);
      }
      assert c in q.locked ==> Delivered(q.out[k], c) == 1;
      if c !in q.locked {
        var r :| r in rules && !r.ignore && r.channel == c && RuleMatches(r, p.diff, fm);
        assert r in rules[1..];
      }
      assert forall x :: x in rules[1..] ==> x in rules;
      DeliversFrom(rules[1..], joined, fm, q, c, k);
    }
  }

  /** For an event `tattle` leaves unchanged, a connection joined to `c`
      gets exactly one message for `c` when some notify rule for `c`
      selects the event and no ignore rule for `c` does. */
  lemma ExactlyOnce(rules: seq<Rule>, diff: Event, joined: seq<set<string>>, fm: (string, string) -> bool, c: string, k: nat)
    requires Settled(diff) && k < |joined| && c in joined[k]
    requires forall r :: r in rules && r.ignore && r.channel == c ==> !RuleMatches(r, diff, fm)
    requires exists r :: r in rules && !r.ignore && r.channel == c && RuleMatches(r, diff, fm)
    ensures Delivered(Outcome(rules, diff, joined, fm)[k], c) == 1
  {
    var p := Start(diff, |joined|);
    forall j, x | 0 <= j < |p.out| ensures Delivered(p.out[j], x) == 0 {
      assert p.out[j] == [];
    }
    DeliversFrom(rules, joined, fm, p, c, k);
  }

  /** The whole decision for an event `tattle` leaves unchanged and an
      ignore-first rule list: connection `k` gets one message for `c`
      exactly when it has joined `c`, a notify rule for `c` selects the
      event and no ignore rule for `c` does; otherwise none. */
  lemma Dispatch(rules: seq<Rule>, diff: Event, joined: seq<set<string>>, fm: (string, string) -> bool, c: string, k: nat)
    requires Settled(diff) && IgnoreFirst(rules) && k < |joined|
    ensures Delivered(Outcome(rules, diff, joined, fm)[k], c) ==
      if c in joined[k]
         && (exists r :: r in rules && !r.ignore && r.channel == c && RuleMatches(r, diff, fm))
         && !(exists r :: r in rules && r.ignore && r.channel == c && RuleMatches(r, diff, fm))
      then 1 else 0
  {
    var out := Outcome(rules, diff, joined, fm)[k];
    if exists r :: r in rules && r.ignore && r.channel == c && RuleMatches(r, diff, fm) {
      var r :| r in rules && r.ignore && r.channel == c && RuleMatches(r, diff, fm);
      var i :| 0 <= i < |rules| && rules[i] == r;
      IgnoreSuppresses(rules, diff, joined, fm, i);
    } else if c in joined[k] && exists r :: r in rules && !r.ignore && r.channel == c && RuleMatches(r, diff, fm) {
      ExactlyOnce(rules, diff, joined, fm, c, k);
    } else {
      OnlyJoinedAndNotified(rules, diff, joined, fm);
      assert c !in Notified(rules, diff, fm) || c !in joined[k];
      DeliveredNone(out, c);
    }
  }

  // ---------------------------------------------------------------------
  // The filled-in summary is seen by later rules
  // ---------------------------------------------------------------------

  /** After the inner loop the event carries the placeholder exactly when
      some connection from the `k`-th on has joined the rule's channel. */
  lemma {:induction false} FanOutDiff(rule: Rule, joined: seq<set<string>>, k: nat, p: Pass)
    requires k <= |joined| == |p.out|
    ensures FanOut(rule, joined, k, p).diff ==
      if exists j :: k <= j < |joined| && rule.channel in joined[j] then WithPlaceholder(p.diff) else p.diff
    decreases |joined| - k
  {
    if k < |joined| {
      var t := Tattled(joined[k], rule, p.diff);
      var p' := Pass(t.0, p.locked + [rule.channel], p.out[k := p.out[k] + t.1]);
      FanOutDiff(rule, joined, k + 1, p');
      assert WithPlaceholder(WithPlaceholder(p.diff)) == WithPlaceholder(p.diff);
      if rule.channel in joined[k] {
        assert t.0 == WithPlaceholder(p.diff);
      } else {
        assert t.0 == p.diff;
        if exists j :: k <= j < |joined| && rule.channel in joined[j] {
          var j :| k <= j < |joined| && rule.channel in joined[j];
          assert k + 1 <= j;
        }
      }
    }
  }

  /** An edit with an empty summary that one notify rule reports is then
      seen by a later summary rule with "[none]" as its summary: a pattern
      that matches "[none]" but not the empty text still fires. */
  lemma PlaceholderReachesLaterRules(a: Rule, b: Rule, diff: Event, joined: seq<set<string>>, fm: (string, string) -> bool, k: nat)
    requires diff.Edit? && diff.summary == []
    requires !a.ignore && RuleMatches(a, diff, fm)
    requires !b.ignore && b.kind == "summary" && a.channel != b.channel
    requires fm(b.pattern, NoSummary) && !fm(b.pattern, [])
    requires k < |joined| && a.channel in joined[0] && b.channel in joined[k]
    ensures !RuleMatches(b, diff, fm)
    ensures Delivered(Outcome([a, b], diff, joined, fm)[k], b.channel) == 1
  {
    var p := Start(diff, |joined|);
    var q := Step(a, joined, fm, p);
    assert q == FanOut(a, joined, 0, p);
    FanOutDiff(a, joined, 0, p);
    assert q.diff.summary == NoSummary;
    assert b.channel !in q.locked;
    var r := Step(b, joined, fm, q);
    assert r == FanOut(b, joined, 0, q);
    FanOutSends(b, joined, 0, q);
    EvaluateTwo(a, b, joined, fm, p);
    var m := Msg(b.channel, Notification(b, WithPlaceholder(q.diff)));
    assert r.out[k] == q.out[k] + [m];
    FanOutSends(a, joined, 0, p);
    assert p.out[k] == [];
    forall l | l in q.out[k] ensures !(l.Msg? && l.target == b.channel) {
      assert l.target == a.channel;
    }
    DeliveredNone(q.out[k], b.channel);
    DeliveredAppend(q.out[k], [m], b.channel);
    assert Delivered([m], b.channel) == 1 by { assert [m][..0] == []; }
  }

  /** The reverse effect: an edit with an empty summary that one notify rule
      reports is then hidden from a later summary rule whose pattern matches
      the empty text but not "[none]", so that rule's channel gets nothing
      although the rule selects the event as it arrived. */
  lemma PlaceholderHidesFromLaterRules(a: Rule, b: Rule, diff: Event, joined: seq<set<string>>, fm: (string, string) -> bool, k: nat)
    requires diff.Edit? && diff.summary == []
    requires !a.ignore && RuleMatches(a, diff, fm)
    requires !b.ignore && b.kind == "summary" && a.channel != b.channel
    requires fm(b.pattern, []) && !fm(b.pattern, NoSummary)
    requires k < |joined| && a.channel in joined[0] && b.channel in joined[k]
    ensures RuleMatches(b, diff, fm)
    ensures Delivered(Outcome([a, b], diff, joined, fm)[k], b.channel) == 0
  {
    var p := Start(diff, |joined|);
    var q := Step(a, joined, fm, p);
    assert q == FanOut(a, joined, 0, p);
    FanOutDiff(a, joined, 0, p);
    assert q.diff.summary == NoSummary;
    assert Step(b, joined, fm, q) == q;
    EvaluateTwo(a, b, joined, fm, p);
    FanOutSends(a, joined, 0, p);
    assert p.out[k] == [];
    assert q.out[k] == [] || q.out[k] == [Msg(a.channel, Notification(a, WithPlaceholder(diff)))];
    forall l | l in q.out[k] ensures !(l.Msg? && l.target == b.channel) {
      assert l.target == a.channel;
    }
    DeliveredNone(q.out[k], b.channel);
  }

  // ---------------------------------------------------------------------
  // What each rule type selects
  // ---------------------------------------------------------------------

  /** A single rule on its own, by type: an ignore rule sends nothing; a
      notify rule sends what `tattle` sends exactly when its type's test
      passes (`all` and unknown types always, `summary`, `user` and `page`
      on their field with `page` reading the summary of a log action, and
      `log` only for a log action whose type equals the lower-cased
      pattern). */
  lemma SingleRuleOutcome(r: Rule, e: Event, joined: seq<set<string>>, fm: (string, string) -> bool, k: nat)
    requires k < |joined|
    ensures r.ignore ==> Outcome([r], e, joined, fm)[k] == []
    ensures !r.ignore && (r.kind == "all" || r.kind !in KnownKinds) ==>
      Outcome([r], e, joined, fm)[k] == Tattled(joined[k], r, e).1
    ensures !r.ignore && r.kind == "summary" ==>
      Outcome([r], e, joined, fm)[k] == if fm(r.pattern, e.summary) then Tattled(joined[k], r, e).1 else []
    ensures !r.ignore && r.kind == "user" ==>
      Outcome([r], e, joined, fm)[k] == if fm(r.pattern, e.user) then Tattled(joined[k], r, e).1 else []
    ensures !r.ignore && r.kind == "page" ==>
      Outcome([r], e, joined, fm)[k]
        == if fm(r.pattern, if e.Edit? then e.page else e.summary) then Tattled(joined[k], r, e).1 else []
    ensures !r.ignore && r.kind == "log" ==>
      Outcome([r], e, joined, fm)[k]
        == if e.LogAction? && Lower(r.pattern) == e.log then Tattled(joined[k], r, e).1 else []
  {
    var p := Start(e, |joined|);
    EvaluateOne(r, joined, fm, p);
    assert p.out[k] == [];
    if !r.ignore {
      FanOutSends(r, joined, 0, p);
    }
  }
}
