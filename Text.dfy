/**
 * The three string operations of Python that the quick command relies on:
 * `str.strip()`, `str.lower().startswith(...)` and `str.split(" ", n)`.
 */
module Text {
  import opened Sequences

  /** The characters for which Python's `str.isspace()` holds. */
  predicate IsSpace(c: char) {
    || ('\t' <= c <= '\r')
    || ('\U{1C}' <= c <= '\U{1F}')
    || c == ' ' || c == '\U{85}' || c == '\U{A0}' || c == '\U{1680}'
    || ('\U{2000}' <= c <= '\U{200A}')
    || c == '\U{2028}' || c == '\U{2029}' || c == '\U{202F}' || c == '\U{205F}' || c == '\U{3000}'
  }

  predicate AllSpace(s: string) {
    forall k :: 0 <= k < |s| ==> IsSpace(s[k])
  }

  /** `s.lstrip()`: `s` without its leading whitespace. */
  function TrimStart(s: string): string {
    if |s| > 0 && IsSpace(s[0]) then TrimStart(s[1..]) else s
  }

  /** `s.rstrip()`: `s` without its trailing whitespace. */
  function TrimEnd(s: string): string {
    if |s| > 0 && IsSpace(s[|s| - 1]) then TrimEnd(s[..|s| - 1]) else s
  }

  /** TrimStart drops a run of whitespace from the front and stops at the first other character. */
  lemma {:induction false} TrimStartDropsSpace(s: string)
    ensures var r := TrimStart(s);
            && |r| <= |s| && r == s[|s| - |r|..]
            && AllSpace(s[..|s| - |r|])
            && (r == [] || !IsSpace(r[0]))
  {
    if |s| > 0 && IsSpace(s[0]) {
      TrimStartDropsSpace(s[1..]);
      var r := TrimStart(s[1..]);
      assert s[1..][|s| - 1 - |r|..] == s[|s| - |r|..];
      forall k | 0 <= k < |s| - |r| ensures IsSpace(s[k]) {
        if k > 0 { assert s[k] == s[1..][..|s| - 1 - |r|][k - 1]; }
      }
    }
  }

  /** TrimEnd drops a run of whitespace from the back and stops at the last other character. */
  lemma {:induction false} TrimEndDropsSpace(s: string)
    ensures var r := TrimEnd(s);
            && |r| <= |s| && r == s[..|r|]
            && AllSpace(s[|r|..])
            && (r == [] || !IsSpace(r[|r| - 1]))
  {
    if |s| > 0 && IsSpace(s[|s| - 1]) {
      var s' := s[..|s| - 1];
      TrimEndDropsSpace(s');
      var r := TrimEnd(s');
      assert s'[..|r|] == s[..|r|];
      forall k | 0 <= k < |s| - |r| ensures IsSpace(s[|r|..][k]) {
        if k < |s| - 1 - |r| { assert s[|r|..][k] == s'[|r|..][k]; }
      }
    }
  }

  /** `s.strip()`: whitespace removed from both ends. */
  function Strip(s: string): (r: string)
    ensures r == [] || (!IsSpace(r[0]) && !IsSpace(r[|r| - 1]))
  {
    var t := TrimStart(s);
    TrimStartDropsSpace(s);
    TrimEndDropsSpace(t);
    TrimEnd(t)
  }

  /**
   * Strip removes exactly the surrounding whitespace: whatever whitespace pads
   * a text that neither starts nor ends with whitespace, stripping gives back
   * that text.
   */
  lemma StripPadding(pre: string, core: string, post: string)
    requires AllSpace(pre) && AllSpace(post)
    requires core == [] || (!IsSpace(core[0]) && !IsSpace(core[|core| - 1]))
    ensures Strip(pre + core + post) == core
  {
    if core == [] {
      var s := pre + post;
      assert pre + core + post == s;
      assert AllSpace(s) by {
        forall k | 0 <= k < |s| ensures IsSpace(s[k]) {
          if k >= |pre| { assert s[k] == post[k - |pre|]; }
        }
      }
      TrimStartDropsSpace(s);
    } else {
      StartPadding(pre, core + post);
      assert pre + core + post == pre + (core + post);
      EndPadding(core, post);
    }
  }

  lemma {:induction false} StartPadding(pre: string, rest: string)
    requires AllSpace(pre)
    requires rest == [] || !IsSpace(rest[0])
    ensures TrimStart(pre + rest) == rest
  {
    if pre != [] {
      assert (pre + rest)[1..] == pre[1..] + rest;
      StartPadding(pre[1..], rest);
    }
  }

  lemma {:induction false} EndPadding(rest: string, post: string)
    requires AllSpace(post)
    requires rest == [] || !IsSpace(rest[|rest| - 1])
    ensures TrimEnd(rest + post) == rest
  {
    if post != [] {
      var post' := post[..|post| - 1];
      assert (rest + post)[..|rest + post| - 1] == rest + post';
      EndPadding(rest, post');
    } else {
      assert rest + post == rest;
    }
  }

  /** Upper-case ASCII letters to lower case; every other character unchanged. */
  function AsciiLower(c: char): (d: char)
    ensures 'A' <= c <= 'Z' ==> d as int == c as int + 32
    ensures !('A' <= c <= 'Z') ==> d == c
  {
    if 'A' <= c <= 'Z' then (c as int + 32) as char else c
  }

  /**
   * `s.lower().startswith(prefix)` with lower-casing applied to ASCII letters
   * only. Python also lower-cases the Kelvin sign U+212A to "k" and U+0130 to
   * "i" followed by U+0307, so the two tests differ for some prefixes; for
   * the quick command's prefix "remind me at" they agree, as it contains no
   * "k" and its one "i" is followed by "n", not by U+0307.
   */
  predicate StartsWithIgnoringCase(s: string, prefix: string) {
    |prefix| <= |s| && forall k :: 0 <= k < |prefix| ==> AsciiLower(s[k]) == prefix[k]
  }

  predicate IsLowerLetter(c: char) {
    'a' <= c <= 'z'
  }

  /**
   * Against a prefix of lower-case letters and spaces, the test admits at
   * each position exactly the prefix's character or, for a letter, its
   * capital.
   */
  lemma IgnoringCaseExactly(s: string, prefix: string)
    requires forall k :: 0 <= k < |prefix| ==> IsLowerLetter(prefix[k]) || prefix[k] == ' '
    ensures StartsWithIgnoringCase(s, prefix) <==>
              && |prefix| <= |s|
              && forall k :: 0 <= k < |prefix| ==>
                   s[k] == prefix[k] || (IsLowerLetter(prefix[k]) && s[k] as int == prefix[k] as int - 32)
  {
  }

  /** The text contains no space character. */
  predicate NoSpace(s: string) {
    |s| == 0 || (s[0] != ' ' && NoSpace(s[1..]))
  }

  /** `" ".join(parts)`. */
  function Join(parts: seq<string>): (s: string)
    requires |parts| >= 1
  {
    if |parts| == 1 then parts[0] else parts[0] + " " + Join(parts[1..])
  }

  /** The last piece joined on after the others. */
  lemma {:induction false} JoinSnoc(parts: seq<string>)
    requires |parts| >= 2
    ensures Join(parts) == Join(parts[..|parts| - 1]) + " " + parts[|parts| - 1]
    decreases |parts|
  {
    var init := parts[..|parts| - 1];
    var last := parts[|parts| - 1];
    if |parts| == 2 {
      assert init == [parts[0]];
    } else {
      JoinSnoc(parts[1..]);
      assert parts[1..][..|parts| - 2] == init[1..];
      assert Join(init) == parts[0] + " " + Join(init[1..]);
      AppendAssoc(parts[0] + " ", Join(init[1..]), " " + last);
      AppendAssoc(parts[0] + " " + Join(init[1..]), " ", last);
      AppendAssoc(Join(init[1..]), " ", last);
    }
  }

  /** Index of the first space of `s`. */
  function FirstSpace(s: string): (k: nat)
    requires !NoSpace(s)
    ensures k < |s| && s[k] == ' ' && NoSpace(s[..k])
  {
    if s[0] == ' ' then 0
    else
      var k := FirstSpace(s[1..]);
      assert s[..k + 1][1..] == s[1..][..k];
      k + 1
  }

  /**
   * `s.split(" ", maxsplit)`: cut at each single space, at most `maxsplit`
   * times, keeping empty pieces; the last piece is the unsplit remainder.
   */
  function Split(s: string, maxsplit: nat): (parts: seq<string>)
    ensures 1 <= |parts| <= maxsplit + 1
    decreases |s|
  {
    if maxsplit == 0 || NoSpace(s) then [s]
    else
      var k := FirstSpace(s);
      [s[..k]] + Split(s[k + 1..], maxsplit - 1)
  }

  /**
   * No piece but the last contains a space; the last contains none either
   * unless all `maxsplit` cuts were made.
   */
  lemma {:induction false} SplitPieces(s: string, maxsplit: nat)
    ensures var parts := Split(s, maxsplit);
            && (forall i :: 0 <= i < |parts| - 1 ==> NoSpace(parts[i]))
            && (|parts| <= maxsplit ==> NoSpace(parts[|parts| - 1]))
    decreases |s|
  {
    if maxsplit != 0 && !NoSpace(s) {
      var k := FirstSpace(s);
      var rest := Split(s[k + 1..], maxsplit - 1);
      SplitPieces(s[k + 1..], maxsplit - 1);
      var parts := [s[..k]] + rest;
      assert Split(s, maxsplit) == parts;
      forall i | 0 < i < |parts| ensures parts[i] == rest[i - 1] {}
    }
  }

  /** Joining the pieces with single spaces gives back the text. */
  lemma {:induction false} SplitJoin(s: string, maxsplit: nat)
    ensures Join(Split(s, maxsplit)) == s
    decreases |s|
  {
    if maxsplit != 0 && !NoSpace(s) {
      var head, tail := CutAtFirstSpace(s);
      SplitCons(head, tail, maxsplit);
      SplitJoin(tail, maxsplit - 1);
      JoinCons(head, Split(tail, maxsplit - 1));
    }
  }

  /**
   * The converse of SplitJoin: pieces without spaces (the last one may have
   * spaces when every cut is used up) joined with single spaces split back
   * into exactly those pieces.
   */
  lemma {:induction false} JoinSplit(parts: seq<string>, maxsplit: nat)
    requires 1 <= |parts| <= maxsplit + 1
    requires forall i :: 0 <= i < |parts| - 1 ==> NoSpace(parts[i])
    requires |parts| <= maxsplit ==> NoSpace(parts[|parts| - 1])
    ensures Split(Join(parts), maxsplit) == parts
    decreases |parts|
  {
    if |parts| == 1 {
      SplitWhole(parts[0], maxsplit);
    } else {
      var rest := parts[1..];
      assert parts == [parts[0]] + rest;
      JoinCons(parts[0], rest);
      JoinSplit(rest, maxsplit - 1);
      SplitStep(parts[0], Join(rest), maxsplit, rest);
    }
  }

  /** A text with a space is its first word, a space, and the rest. */
  lemma CutAtFirstSpace(s: string) returns (head: string, tail: string)
    requires !NoSpace(s)
    ensures NoSpace(head) && s == head + " " + tail
  {
    var k := FirstSpace(s);
    head, tail := s[..k], s[k + 1..];
    assert s == head + " " + tail;
  }

  lemma JoinCons(p: string, rest: seq<string>)
    requires |rest| >= 1
    ensures Join([p] + rest) == p + " " + Join(rest)
  {
    assert ([p] + rest)[1..] == rest;
  }

  /**
   * A piece without spaces followed by a space is cut off as the first piece;
   * splitting goes on in the rest with one cut fewer.
   */
  lemma {:induction false} SplitCons(p: string, t: string, maxsplit: nat)
    requires NoSpace(p) && maxsplit >= 1
    ensures Split(p + " " + t, maxsplit) == [p] + Split(t, maxsplit - 1)
  {
    var s := p + " " + t;
    FirstSpaceAfter(p, t);
    assert s[..|p|] == p;
    assert s[|p| + 1..] == t;
  }

  /** SplitCons with the split of the rest already known. */
  lemma SplitStep(p: string, t: string, maxsplit: nat, rest: seq<string>)
    requires NoSpace(p) && maxsplit >= 1 && Split(t, maxsplit - 1) == rest
    ensures Split(p + " " + t, maxsplit) == [p] + rest
  {
    SplitCons(p, t, maxsplit);
  }

  /** With no space at all, or no cut left, the text is one piece. */
  lemma SplitWhole(s: string, maxsplit: nat)
    requires NoSpace(s) || maxsplit == 0
    ensures Split(s, maxsplit) == [s]
  {
  }

  lemma {:induction false} FirstSpaceAfter(p: string, t: string)
    requires NoSpace(p)
    ensures !NoSpace(p + " " + t) && FirstSpace(p + " " + t) == |p|
  {
    if p == [] {
      assert (p + " " + t)[0] == ' ';
    } else {
      assert (p + " " + t)[1..] == p[1..] + " " + t;
      FirstSpaceAfter(p[1..], t);
    }
  }

  /** Number of space characters in `s`. */
  function Spaces(s: string): nat {
    if |s| == 0 then 0 else (if s[0] == ' ' then 1 else 0) + Spaces(s[1..])
  }

  lemma {:induction false} SpacesOfConcat(a: string, b: string)
    ensures Spaces(a + b) == Spaces(a) + Spaces(b)
  {
    if a != [] {
      assert (a + b)[1..] == a[1..] + b;
      SpacesOfConcat(a[1..], b);
    } else {
      assert a + b == b;
    }
  }

  lemma {:induction false} NoSpaceCount(s: string)
    ensures NoSpace(s) <==> Spaces(s) == 0
  {
    if s != [] {
      NoSpaceCount(s[1..]);
    }
  }

  /** Split cuts at every space until `maxsplit` cuts are made. */
  lemma {:induction false} SplitCount(s: string, maxsplit: nat)
    ensures |Split(s, maxsplit)| == 1 + if Spaces(s) < maxsplit then Spaces(s) else maxsplit
    decreases |s|
  {
    NoSpaceCount(s);
    if maxsplit != 0 && !NoSpace(s) {
      var head, tail := CutAtFirstSpace(s);
      SplitCons(head, tail, maxsplit);
      SplitCount(tail, maxsplit - 1);
      SpacesOfConcat(head + " ", tail);
      SpacesOfConcat(head, " ");
      NoSpaceCount(head);
    }
  }
}
