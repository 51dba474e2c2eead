/** The few Python 2 string operations the relay core relies on, on text
    modelled as sequences of characters (one character per byte of a
    Python 2 `str`). */
module Strings {

  /** `s.startswith(p)` */
  predicate StartsWith(s: string, p: string) {
    |p| <= |s| && s[..|p|] == p
  }

  /** `w in s` for strings: some suffix of `s` starts with `w`. */
  predicate Contains(s: string, w: string)
    decreases |s|
  {
    StartsWith(s, w) || (s != [] && Contains(s[1..], w))
  }

  predicate IsDigit(c: char) { '0' <= c <= '9' }

  predicate IsUpper(c: char) { 'A' <= c <= 'Z' }

  function LowerChar(c: char): char {
    if IsUpper(c) then (c as int + 32) as char else c
  }

  /** `s.lower()` on a byte string: only ASCII letters change. */
  function Lower(s: string): (r: string)
    ensures |r| == |s|
    ensures forall i :: 0 <= i < |r| ==> !IsUpper(r[i])
    ensures forall i :: 0 <= i < |r| ==> IsUpper(s[i]) || r[i] == s[i]
    ensures forall i :: 0 <= i < |s| && IsUpper(s[i]) ==> r[i] as int == s[i] as int + 32
  {
    if s == [] then [] else [LowerChar(s[0])] + Lower(s[1..])
  }

  // ---------------------------------------------------------------------
  // s.split(sep) with an explicit separator, and sep.join(parts)
  // ---------------------------------------------------------------------

  /** `s.split(sep)`: every occurrence of `sep` separates two fields, empty
      fields are kept, and there is always at least one field. */
  function SplitOn(s: string, sep: char): (parts: seq<string>)
    ensures |parts| >= 1
    ensures forall p :: p in parts ==> sep !in p
    decreases |s|
  {
    if s == [] then [[]]
    else
      var rest := SplitOn(s[1..], sep);
      if s[0] == sep then [[]] + rest
      else [[s[0]] + rest[0]] + rest[1..]
  }

  /** `sep.join(parts)` */
  function JoinWith(sep: string, parts: seq<string>): string
    decreases |parts|
  {
    if parts == [] then []
    else if |parts| == 1 then parts[0]
    else parts[0] + sep + JoinWith(sep, parts[1..])
  }

  /** Joining the fields of a split with the separator gives back the text. */
  lemma {:induction false} JoinSplit(s: string, sep: char)
    ensures JoinWith([sep], SplitOn(s, sep)) == s
    decreases |s|
  {
    if s != [] {
      var rest := SplitOn(s[1..], sep);
      JoinSplit(s[1..], sep);
      var parts := SplitOn(s, sep);
      if s[0] == sep {
        assert parts == [[]] + rest;
        assert parts[1..] == rest;
      } else {
        assert parts == [[s[0]] + rest[0]] + rest[1..];
        if |rest| == 1 {
          assert |parts| == 1;
        } else {
          assert parts[1..] == rest[1..];
          assert JoinWith([sep], rest) == rest[0] + [sep] + JoinWith([sep], rest[1..]);
        }
      }
    }
  }

  /** A field without the separator splits to itself. */
  lemma {:induction false} SplitPlain(a: string, sep: char)
    requires sep !in a
    ensures SplitOn(a, sep) == [a]
    decreases |a|
  {
    if a != [] {
      SplitPlain(a[1..], sep);
      assert [a[0]] + a[1..] == a;
    }
  }

  /** The first separator ends the first field. */
  lemma {:induction false} SplitAfter(a: string, b: string, sep: char)
    requires sep !in a
    ensures SplitOn(a + [sep] + b, sep) == [a] + SplitOn(b, sep)
    decreases |a|
  {
    var s := a + [sep] + b;
    if a == [] {
      assert s[1..] == b;
    } else {
      assert s[1..] == a[1..] + [sep] + b;
      SplitAfter(a[1..], b, sep);
      assert [a[0]] + a[1..] == a;
    }
  }

  /** Splitting a join of separator-free fields gives back the fields. */
  lemma {:induction false} SplitJoin(parts: seq<string>, sep: char)
    requires |parts| >= 1
    requires forall p :: p in parts ==> sep !in p
    ensures SplitOn(JoinWith([sep], parts), sep) == parts
    decreases |parts|
  {
    if |parts| == 1 {
      SplitPlain(parts[0], sep);
    } else {
      SplitJoin(parts[1..], sep);
      SplitAfter(parts[0], JoinWith([sep], parts[1..]), sep);
      assert [parts[0]] + parts[1..] == parts;
    }
  }

  // ---------------------------------------------------------------------
  // url.replace('http://', 'https://')
  // ---------------------------------------------------------------------

  const Http: string := "http://"
  const Https: string := "https://"

  /** `u.replace('http://', 'https://')`: left to right, non-overlapping. */
  function SecureScheme(u: string): string
    decreases |u|
  {
    if StartsWith(u, Http) then Https + SecureScheme(u[|Http|..])
    else if u == [] then []
    else [u[0]] + SecureScheme(u[1..])
  }

  /** A url without the insecure scheme marker is left as it is. */
  lemma {:induction false} SecureSchemeKeepsSecureUrl(u: string)
    requires !Contains(u, Http)
    ensures SecureScheme(u) == u
    decreases |u|
  {
    if u != [] {
      SecureSchemeKeepsSecureUrl(u[1..]);
      assert [u[0]] + u[1..] == u;
    }
  }

  /** Text free of 'h' is found at the start of a rewritten url only where
      it stood at the start of the original. */
  lemma {:induction false} SecurePrefixWithoutH(u: string, w: string)
    requires 'h' !in w
    requires StartsWith(SecureScheme(u), w)
    ensures StartsWith(u, w)
    decreases |u|
  {
    if w != [] {
      var sr := SecureScheme(u);
      assert w[0] in w && w[0] == sr[..|w|][0];
      if StartsWith(u, Http) {
        assert false;
      } else if u == [] {
      } else {
        var r := SecureScheme(u[1..]);
        assert sr == [u[0]] + r;
        forall k | 0 <= k < |w| - 1 ensures r[k] == w[k + 1] {
          assert sr[k + 1] == r[k];
          assert sr[..|w|][k + 1] == w[k + 1];
        }
        assert r[..|w| - 1] == w[1..];
        SecurePrefixWithoutH(u[1..], w[1..]);
        assert u[..|w|] == [u[0]] + u[1..][..|w| - 1];
      }
    }
  }

  /** A prefix without 'h' cannot hide the start of an occurrence of `w`. */
  lemma {:induction false} ContainsSkipsPrefix(a: string, b: string, w: string)
    requires w != [] && w[0] == 'h' && 'h' !in a
    requires Contains(a + b, w)
    ensures Contains(b, w)
    decreases |a|
  {
    if a == [] {
      assert a + b == b;
    } else {
      assert (a + b)[0] == a[0];
      assert !StartsWith(a + b, w);
      assert (a + b)[1..] == a[1..] + b;
      ContainsSkipsPrefix(a[1..], b, w);
    }
  }

  /** After the rewrite no insecure scheme marker is left anywhere. */
  lemma {:induction false} SecureSchemeComplete(u: string)
    ensures !Contains(SecureScheme(u), Http)
    decreases |u|
  {
    var r := SecureScheme(u);
    if StartsWith(u, Http) {
      var rest := SecureScheme(u[|Http|..]);
      SecureSchemeComplete(u[|Http|..]);
      assert r == "h" + ("ttps://" + rest);
      assert r[4] == 's';
      assert !StartsWith(r, Http);
      if Contains(r, Http) {
        assert r[1..] == "ttps://" + rest;
        ContainsSkipsPrefix("ttps://", rest, Http);
      }
    } else if u != [] {
      var rest := SecureScheme(u[1..]);
      SecureSchemeComplete(u[1..]);
      assert r == [u[0]] + rest;
      assert r[1..] == rest;
      if StartsWith(r, Http) {
        assert StartsWith(rest, "ttp://") by {
          assert r[1..7] == rest[..6];
        }
        SecurePrefixWithoutH(u[1..], "ttp://");
        assert false;
      }
    }
  }

  // ---------------------------------------------------------------------
  // s.strip(chars)
  // ---------------------------------------------------------------------

  /** `s.lstrip(chars)` */
  function LStrip(s: string, cs: set<char>): (r: string)
    ensures |r| <= |s| && r == s[|s| - |r|..]
    ensures forall k :: 0 <= k < |s| - |r| ==> s[k] in cs
    ensures r == [] || r[0] !in cs
    decreases |s|
  {
    if s != [] && s[0] in cs then LStrip(s[1..], cs) else s
  }

  /** `s.rstrip(chars)` */
  function RStrip(s: string, cs: set<char>): (r: string)
    ensures |r| <= |s| && r == s[..|r|]
    ensures forall k :: |r| <= k < |s| ==> s[k] in cs
    ensures r == [] || r[|r| - 1] !in cs
    decreases |s|
  {
    if s != [] && s[|s| - 1] in cs then RStrip(s[..|s| - 1], cs) else s
  }

  /** `s.strip(chars)`: drops every leading and trailing character that
      belongs to the SET `chars`; it does not remove `chars` as a word. */
  function StripChars(s: string, cs: set<char>): string {
    RStrip(LStrip(s, cs), cs)
  }

  /** The strip keeps one contiguous slice `s[i..j]` of the text, drops
      only characters of the set around it, and cannot strip further. */
  lemma StripCharsSlice(s: string, cs: set<char>) returns (i: nat, j: nat)
    ensures i <= j <= |s| && StripChars(s, cs) == s[i..j]
    ensures forall k :: 0 <= k < i ==> s[k] in cs
    ensures forall k :: j <= k < |s| ==> s[k] in cs
    ensures var r := StripChars(s, cs); r == [] || (r[0] !in cs && r[|r| - 1] !in cs)
  {
    var l := LStrip(s, cs);
    var r := RStrip(l, cs);
    i := |s| - |l|;
    j := i + |r|;
    assert l == s[i..];
    assert r == l[..|r|];
    forall k | j <= k < |s| ensures s[k] in cs {
      assert s[k] == l[k - i];
    }
    if r != [] {
      assert r[0] == l[0];
    }
  }
}
