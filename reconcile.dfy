/** Channel reconciliation of the feed connection: `syncChannels` computes
    which feed channels to join and which to leave from the wikis named in
    the rule table, and the `joined`/`left` callbacks bring the connection's
    channel set up to date once the server confirms. */
module Reconcile {
  import opened Model

  /** `'#' + wiki` for every stored rule: the feed channels whose name,
      read back as the feed connection reads it (`channel[1:]`), is the
      wiki of some rule. */
  function Desired(rules: set<Rule>): (d: set<string>)
    ensures forall c :: c in d <==> c != [] && c[0] == '#' && exists r :: r in rules && r.wiki == WikiOf(c)
  {
    var d := set r | r in rules :: "#" + r.wiki;
    assert forall c :: c != [] && c[0] == '#' ==> c == "#" + WikiOf(c);
    d
  }

  /** `xs` lists every element of `s` exactly once, in some order (the
      iteration order of a Python set). */
  predicate Enumerates(xs: seq<string>, s: set<string>) {
    Distinct(xs) && (forall x :: x in xs ==> x in s) && (forall x :: x in s ==> x in xs)
  }

  /** Taking one more element out of what is left extends the listing. */
  lemma EnumeratesStep(xs: seq<string>, s: set<string>, todo: set<string>, c: string)
    requires todo <= s && c in todo && Enumerates(xs, s - todo)
    ensures Enumerates(xs + [c], s - (todo - {c}))
  {
    assert c !in xs;
  }

  function JoinLines(xs: seq<string>): (ls: seq<Line>)
    ensures |ls| == |xs|
    ensures forall i :: 0 <= i < |xs| ==> ls[i] == JoinCmd(xs[i])
  {
    if xs == [] then [] else [JoinCmd(xs[0])] + JoinLines(xs[1..])
  }

  function PartLines(xs: seq<string>): (ls: seq<Line>)
    ensures |ls| == |xs|
    ensures forall i :: 0 <= i < |xs| ==> ls[i] == PartCmd(xs[i])
  {
    if xs == [] then [] else [PartCmd(xs[0])] + PartLines(xs[1..])
  }

  /** The channel set after the server has confirmed every join and part
      of `lines`, one `joined` or `left` callback each. */
  function Callbacks(channels: set<string>, lines: seq<Line>): set<string>
    decreases |lines|
  {
    if lines == [] then channels
    else
      var l := lines[0];
      var next :=
        if l.JoinCmd? then channels + {l.target}
        else if l.PartCmd? then channels - {l.target}
        else channels;
      Callbacks(next, lines[1..])
  }

  lemma {:induction false} CallbacksAppend(c: set<string>, a: seq<Line>, b: seq<Line>)
    ensures Callbacks(c, a + b) == Callbacks(Callbacks(c, a), b)
    decreases |a|
  {
    if a == [] {
      assert a + b == b;
    } else {
      assert (a + b)[1..] == a[1..] + b;
      var l := a[0];
      var next :=
        if l.JoinCmd? then c + {l.target}
        else if l.PartCmd? then c - {l.target}
        else c;
      CallbacksAppend(next, a[1..], b);
    }
  }

  lemma {:induction false} CallbacksJoins(c: set<string>, xs: seq<string>)
    ensures Callbacks(c, JoinLines(xs)) == c + set x | x in xs
    decreases |xs|
  {
    if xs != [] {
      var ls := JoinLines(xs);
      assert ls[1..] == JoinLines(xs[1..]);
      CallbacksJoins(c + {xs[0]}, xs[1..]);
      assert (c + {xs[0]}) + (set x | x in xs[1..]) == c + set x | x in xs;
    }
  }

  lemma {:induction false} CallbacksParts(c: set<string>, xs: seq<string>)
    ensures Callbacks(c, PartLines(xs)) == c - set x | x in xs
    decreases |xs|
  {
    if xs != [] {
      var ls := PartLines(xs);
      assert ls[1..] == PartLines(xs[1..]);
      CallbacksParts(c - {xs[0]}, xs[1..]);
      assert (c - {xs[0]}) - (set x | x in xs[1..]) == c - set x | x in xs;
    }
  }

  /** `lines` is what one `syncChannels` sends from a connection whose
      channel set is `channels`: a join for each channel of `desired` it
      is not in, then a part for each channel it is in that `desired`
      lacks, every one once, each group in set order. */
  ghost predicate IsSync(lines: seq<Line>, channels: set<string>, desired: set<string>) {
    exists joins, parts :: Enumerates(joins, desired - channels) && Enumerates(parts, channels - desired)
      && lines == JoinLines(joins) + PartLines(parts)
  }

  lemma JoinLinesCarry(xs: seq<string>)
    ensures forall l :: l in JoinLines(xs) ==> l.JoinCmd? && l.target in xs
  {
    forall l | l in JoinLines(xs) ensures l.JoinCmd? && l.target in xs {
      var i :| 0 <= i < |xs| && JoinLines(xs)[i] == l;
    }
  }

  lemma PartLinesCarry(xs: seq<string>)
    ensures forall l :: l in PartLines(xs) ==> l.PartCmd? && l.target in xs
  {
    forall l | l in PartLines(xs) ensures l.PartCmd? && l.target in xs {
      var i :| 0 <= i < |xs| && PartLines(xs)[i] == l;
    }
  }

  lemma SyncFrom(joins: seq<string>, parts: seq<string>, channels: set<string>, desired: set<string>)
    requires Enumerates(joins, desired - channels) && Enumerates(parts, channels - desired)
    ensures IsSync(JoinLines(joins) + PartLines(parts), channels, desired)
  {
  }

  /** No channel is both joined and left by one sync. */
  lemma SyncDisjoint(channels: set<string>, desired: set<string>, lines: seq<Line>)
    requires IsSync(lines, channels, desired)
    ensures forall c :: JoinCmd(c) in lines ==> c in desired && c !in channels
    ensures forall c :: PartCmd(c) in lines ==> c in channels && c !in desired
  {
    var joins, parts :| Enumerates(joins, desired - channels) && Enumerates(parts, channels - desired)
      && lines == JoinLines(joins) + PartLines(parts);
    JoinLinesCarry(joins);
    PartLinesCarry(parts);
  }

  /** Once the server has confirmed every join and part of a sync, the
      channel set is exactly `desired`. */
  lemma Converges(channels: set<string>, desired: set<string>, lines: seq<Line>)
    requires IsSync(lines, channels, desired)
    ensures Callbacks(channels, lines) == desired
  {
    var joins, parts :| Enumerates(joins, desired - channels) && Enumerates(parts, channels - desired)
      && lines == JoinLines(joins) + PartLines(parts);
    CallbacksAppend(channels, JoinLines(joins), PartLines(parts));
    CallbacksJoins(channels, joins);
    assert (set x | x in joins) == desired - channels;
    assert (set x | x in parts) == channels - desired;
    CallbacksParts(channels + (desired - channels), parts);
  }

  /** A listing is empty exactly when the set is. */
  lemma EnumeratesEmpty(xs: seq<string>, s: set<string>)
    requires Enumerates(xs, s)
    ensures xs == [] <==> s == {}
  {
    if xs != [] {
      assert xs[0] in s;
    }
  }

  /** A second sync once the channel set is in step sends nothing. */
  lemma SecondSyncIsQuiet(channels: set<string>, desired: set<string>, lines: seq<Line>)
    requires channels == desired
    requires IsSync(lines, channels, desired)
    ensures lines == []
  {
    var joins, parts :| Enumerates(joins, desired - channels) && Enumerates(parts, channels - desired)
      && lines == JoinLines(joins) + PartLines(parts);
    assert desired - channels == {};
    EnumeratesEmpty(joins, desired - channels);
    EnumeratesEmpty(parts, channels - desired);
  }
}
