/** The Python string operations the bot relies on: `str.strip()`,
    `str.lower()`, `str.startswith()`, and `sep.join(...)`.

    `IsSpace` is exactly the set of characters for which Python's
    `str.isspace()` holds, so `Strip` agrees with `str.strip()`.
    `Lower` folds ASCII letters only; Python folds every cased Unicode
    letter (see the README). */
module Text {

  /** Python `str.isspace()` for a single character. */
  predicate IsSpace(c: char)
  {
    || ('\t' <= c <= '\r')              // tab, line feed, vertical tab, form feed, carriage return
    || ('\U{1C}' <= c <= '\U{1F}')      // file, group, record and unit separators
    || c == ' ' || c == '\U{85}' || c == '\U{A0}' || c == '\U{1680}'
    || ('\U{2000}' <= c <= '\U{200A}')
    || c == '\U{2028}' || c == '\U{2029}' || c == '\U{202F}' || c == '\U{205F}' || c == '\U{3000}'
  }

  ghost predicate AllSpace(s: string)
  {
    forall i :: 0 <= i < |s| ==> IsSpace(s[i])
  }

  /** `s.lstrip()` */
  function TrimLeft(s: string): (r: string)
    ensures |r| <= |s| && r == s[|s| - |r|..]
    ensures forall i :: 0 <= i < |s| - |r| ==> IsSpace(s[i])
    ensures r == [] || !IsSpace(r[0])
    decreases |s|
  {
    if |s| > 0 && IsSpace(s[0]) then TrimLeft(s[1..]) else s
  }

  /** `s.rstrip()` */
  function TrimRight(s: string): (r: string)
    ensures |r| <= |s| && r == s[..|r|]
    ensures forall i :: |r| <= i < |s| ==> IsSpace(s[i])
    ensures r == [] || !IsSpace(r[|r| - 1])
    decreases |s|
  {
    if |s| > 0 && IsSpace(s[|s| - 1]) then TrimRight(s[..|s| - 1]) else s
  }

  /** `s.strip()`: what is left of `s` after removing all leading and all
      trailing whitespace. */
  function Strip(s: string): (r: string)
    ensures r == [] || (!IsSpace(r[0]) && !IsSpace(r[|r| - 1]))
  {
    TrimRight(TrimLeft(s))
  }

  lemma {:induction false} TrimLeftPadded(pre: string, t: string)
    requires AllSpace(pre)
    requires t == [] || !IsSpace(t[0])
    ensures TrimLeft(pre + t) == t
    decreases |pre|
  {
    if pre == [] {
      assert pre + t == t;
    } else {
      assert (pre + t)[0] == pre[0];
      assert (pre + t)[1..] == pre[1..] + t;
      TrimLeftPadded(pre[1..], t);
    }
  }

  lemma {:induction false} TrimRightPadded(t: string, post: string)
    requires AllSpace(post)
    requires t == [] || !IsSpace(t[|t| - 1])
    ensures TrimRight(t + post) == t
    decreases |post|
  {
    if post == [] {
      assert t + post == t;
    } else {
      var n := |t + post|;
      assert (t + post)[n - 1] == post[|post| - 1];
      assert (t + post)[..n - 1] == t + post[..|post| - 1];
      TrimRightPadded(t, post[..|post| - 1]);
    }
  }

  /** `strip()` removes exactly the whitespace padding: whatever text with
      non-whitespace ends is surrounded by whitespace, stripping gives that
      text back. Together with the contract of `Strip` and of `TrimLeft`
      and `TrimRight` (the result is a slice of the input with whitespace
      on both sides) this pins the result down. */
  lemma StripOfPadded(pre: string, core: string, post: string)
    requires AllSpace(pre) && AllSpace(post)
    requires core == [] || (!IsSpace(core[0]) && !IsSpace(core[|core| - 1]))
    ensures Strip(pre + core + post) == core
  {
    if core == [] {
      assert pre + core + post == (pre + post) + [];
      assert AllSpace(pre + post);
      TrimLeftPadded(pre + post, []);
    } else {
      assert pre + core + post == pre + (core + post);
      TrimLeftPadded(pre, core + post);
      TrimRightPadded(core, post);
    }
  }

  /** A text is stripped to nothing exactly when it is all whitespace. */
  lemma StripEmptyIffAllSpace(s: string)
    ensures Strip(s) == [] <==> AllSpace(s)
  {
    if AllSpace(s) {
      StripOfPadded(s, [], []);
      assert s + [] + [] == s;
    }
  }

  /** Stripping is idempotent. */
  lemma StripIdempotent(s: string)
    ensures Strip(Strip(s)) == Strip(s)
  {
    var r := Strip(s);
    StripOfPadded([], r, []);
    assert [] + r + [] == r;
  }

  /** ASCII part of Python `str.lower()` for a single character: a capital
      becomes the small letter of the same name, anything else is kept. */
  function LowerChar(c: char): (r: char)
    ensures 'A' <= c <= 'Z' ==> 'a' <= r <= 'z' && r as int == c as int + ('a' as int - 'A' as int)
    ensures !('A' <= c <= 'Z') ==> r == c
  {
    if 'A' <= c <= 'Z' then (c as int - 'A' as int + 'a' as int) as char else c
  }

  /** `s.lower()` on ASCII letters: the result has no ASCII capital left,
      and differs from `s` only where `s` has one. */
  function Lower(s: string): (r: string)
    ensures |r| == |s|
    ensures forall i :: 0 <= i < |s| ==> !('A' <= r[i] <= 'Z')
    ensures forall i :: 0 <= i < |s| && !('A' <= s[i] <= 'Z') ==> r[i] == s[i]
    ensures forall i :: 0 <= i < |s| && 'A' <= s[i] <= 'Z' ==> r[i] as int == s[i] as int + ('a' as int - 'A' as int)
  {
    seq(|s|, i requires 0 <= i < |s| => LowerChar(s[i]))
  }

  /** Lower-casing twice is lower-casing once. */
  lemma LowerIdempotent(s: string)
    ensures Lower(Lower(s)) == Lower(s)
  {
  }

  /** `s.startswith(prefix)` */
  predicate StartsWith(s: string, prefix: string)
  {
    |prefix| <= |s| && s[..|prefix|] == prefix
  }

  /** `sep.join(parts)` */
  function Join(parts: seq<string>, sep: string): (r: string)
    ensures |parts| == 1 ==> r == parts[0]
    decreases |parts|
  {
    if |parts| == 0 then ""
    else if |parts| == 1 then parts[0]
    else parts[0] + sep + Join(parts[1..], sep)
  }

  /** Joining one more part at the end. */
  lemma {:induction false} JoinSnoc(parts: seq<string>, sep: string, last: string)
    requires |parts| > 0
    ensures Join(parts + [last], sep) == Join(parts, sep) + sep + last
    decreases |parts|
  {
    if |parts| == 1 {
      assert (parts + [last])[1..] == [last];
    } else {
      assert (parts + [last])[1..] == parts[1..] + [last];
      JoinSnoc(parts[1..], sep, last);
      assert Join(parts + [last], sep) == parts[0] + sep + Join(parts[1..] + [last], sep);
    }
  }

  /** The text of `Join(parts, sep)` before `parts[i]`: the earlier parts,
      each followed by the separator. */
  function JoinBefore(parts: seq<string>, sep: string, i: nat): string
    requires i <= |parts|
  {
    if i == 0 then "" else Join(parts[..i], sep) + sep
  }

  /** The text of `Join(parts, sep)` after `parts[i]`: the later parts, each
      preceded by the separator. */
  function JoinAfter(parts: seq<string>, sep: string, i: nat): string
    requires i < |parts|
  {
    if i + 1 < |parts| then sep + Join(parts[i + 1..], sep) else ""
  }

  /** Every part of a joined text sits between the earlier and the later
      parts, and the text before the next part is the text before this part
      followed by this part and the separator. */
  lemma {:induction false} JoinSplitAt(parts: seq<string>, sep: string, i: nat)
    requires i < |parts|
    ensures Join(parts, sep) == JoinBefore(parts, sep, i) + parts[i] + JoinAfter(parts, sep, i)
    ensures JoinBefore(parts, sep, i + 1) == JoinBefore(parts, sep, i) + parts[i] + sep
    decreases i
  {
    if i == 0 {
      assert parts[..1] == [parts[0]];
      if |parts| > 1 {
        assert Join(parts, sep) == parts[0] + sep + Join(parts[1..], sep);
      }
    } else {
      JoinSplitAt(parts[1..], sep, i - 1);
      JoinSplitAtNext(parts, sep, i);
      JoinBeforeNext(parts, sep, i);
    }
  }

  /** The first half of the inductive step of `JoinSplitAt`. */
  lemma JoinSplitAtNext(parts: seq<string>, sep: string, i: nat)
    requires 0 < i < |parts|
    requires var tail := parts[1..];
      Join(tail, sep) == JoinBefore(tail, sep, i - 1) + tail[i - 1] + JoinAfter(tail, sep, i - 1)
    ensures Join(parts, sep) == JoinBefore(parts, sep, i) + parts[i] + JoinAfter(parts, sep, i)
  {
    var tail := parts[1..];
    assert tail[i - 1] == parts[i];
    JoinAfterCons(parts, sep, i);
    JoinBeforeCons(parts, sep, i);
    JoinCons(parts, sep);
    Regroup(parts[0] + sep, JoinBefore(tail, sep, i - 1), parts[i], JoinAfter(tail, sep, i - 1));
  }

  /** The second half of the inductive step of `JoinSplitAt`. */
  lemma JoinBeforeNext(parts: seq<string>, sep: string, i: nat)
    requires 0 < i < |parts|
    requires var tail := parts[1..];
      JoinBefore(tail, sep, i) == JoinBefore(tail, sep, i - 1) + tail[i - 1] + sep
    ensures JoinBefore(parts, sep, i + 1) == JoinBefore(parts, sep, i) + parts[i] + sep
  {
    var tail := parts[1..];
    assert tail[i - 1] == parts[i];
    JoinBeforeCons(parts, sep, i);
    JoinBeforeCons(parts, sep, i + 1);
    Regroup(parts[0] + sep, JoinBefore(tail, sep, i - 1), parts[i], sep);
  }

  lemma Regroup(a: string, b: string, c: string, d: string)
    ensures a + (b + c + d) == (a + b) + c + d
  {
  }

  lemma JoinCons(parts: seq<string>, sep: string)
    requires |parts| > 1
    ensures Join(parts, sep) == parts[0] + sep + Join(parts[1..], sep)
  {
  }

  lemma JoinAfterCons(parts: seq<string>, sep: string, i: nat)
    requires 0 < i < |parts|
    ensures JoinAfter(parts, sep, i) == JoinAfter(parts[1..], sep, i - 1)
  {
    assert parts[1..][i..] == parts[i + 1..];
  }

  lemma JoinBeforeCons(parts: seq<string>, sep: string, i: nat)
    requires 0 < i <= |parts|
    ensures JoinBefore(parts, sep, i) == parts[0] + sep + JoinBefore(parts[1..], sep, i - 1)
  {
    if i > 1 {
      assert parts[..i][1..] == parts[1..][..i - 1];
      assert Join(parts[..i], sep) == parts[0] + sep + Join(parts[1..][..i - 1], sep);
    } else {
      assert parts[..i] == [parts[0]];
    }
  }
}
