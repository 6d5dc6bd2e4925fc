/** Strings as the path index uses them: prefix tests, `rstrip` and SQL `REPLACE`. */
module Paths {

  predicate StartsWith(s: string, prefix: string) {
    |prefix| <= |s| && s[..|prefix|] == prefix
  }

  /** `s.rstrip("/")`. */
  function RStripSlash(s: string): (r: string)
    ensures StartsWith(s, r)
    ensures r == "" || r[|r| - 1] != '/'
  {
    if s != "" && s[|s| - 1] == '/' then RStripSlash(s[..|s| - 1]) else s
  }

  /** `REPLACE(s, from, to)`: every occurrence, left to right, without overlap. */
  function Replace(s: string, from: string, to: string): string
    requires from != ""
    decreases |s|
  {
    if |s| < |from| then s
    else if s[..|from|] == from then to + Replace(s[|from|..], from, to)
    else [s[0]] + Replace(s[1..], from, to)
  }

  predicate Occurs(s: string, pattern: string)
    decreases |s|
  {
    |pattern| <= |s| && (s[..|pattern|] == pattern || (s != "" && Occurs(s[1..], pattern)))
  }

  /** A name that neither vanishes nor loses anything when a path is stripped. */
  predicate TidyName(name: string) {
    name != "" && name[|name| - 1] != '/'
  }

  lemma {:induction false} ReplaceAbsent(s: string, from: string, to: string)
    requires from != "" && !Occurs(s, from)
    ensures Replace(s, from, to) == s
    decreases |s|
  {
    if |s| >= |from| {
      ReplaceAbsent(s[1..], from, to);
    }
  }

  /** Replacing changes the length in one direction only. */
  lemma {:induction false} ReplaceLength(s: string, from: string, to: string)
    requires from != ""
    ensures |to| >= |from| ==> |Replace(s, from, to)| >= |s|
    ensures |to| <= |from| ==> |Replace(s, from, to)| <= |s|
    ensures |to| != |from| && Occurs(s, from) ==> |Replace(s, from, to)| != |s|
    decreases |s|
  {
    if |s| >= |from| {
      if s[..|from|] == from {
        ReplaceLength(s[|from|..], from, to);
      } else {
        ReplaceLength(s[1..], from, to);
      }
    }
  }

  /** An occurrence of `from` is always visible in the result. */
  lemma {:induction false} ReplacePresent(s: string, from: string, to: string)
    requires from != "" && from != to && Occurs(s, from)
    ensures Replace(s, from, to) != s
    decreases |s|
  {
    if |from| != |to| {
      ReplaceLength(s, from, to);
    } else if s[..|from|] == from {
      assert Replace(s, from, to)[..|to|] == to;
    } else {
      ReplacePresent(s[1..], from, to);
      assert Replace(s, from, to)[1..] == Replace(s[1..], from, to);
    }
  }

  /** Rewriting a path that starts with `from` gives the intended path exactly when
      `from` does not occur again in the rest. */
  lemma ReplaceHead(rest: string, from: string, to: string)
    requires from != "" && from != to
    ensures Replace(from + rest, from, to) == to + Replace(rest, from, to)
    ensures Replace(from + rest, from, to) == to + rest <==> !Occurs(rest, from)
  {
    assert (from + rest)[..|from|] == from && (from + rest)[|from|..] == rest;
    var r := Replace(rest, from, to);
    if Occurs(rest, from) {
      ReplacePresent(rest, from, to);
      assert (to + r)[|to|..] == r && (to + rest)[|to|..] == rest;
    } else {
      ReplaceAbsent(rest, from, to);
    }
  }

  lemma PrefixOfLonger(s: string, more: string, prefix: string)
    requires StartsWith(s, prefix)
    ensures StartsWith(s + more, prefix) && (s + more)[|prefix|..] == s[|prefix|..] + more
  {
    assert (s + more)[..|prefix|] == s[..|prefix|];
  }

  /** A prefix that ends in a slash cannot reach into the last name. */
  lemma SlashPrefix(base: string, name: string, a: string)
    requires StartsWith(base + "/" + name, a + "/") && '/' !in name
    ensures if |a| < |base| then StartsWith(base, a + "/") else a == base
  {
    var s := base + "/" + name;
    var n := |a|;
    assert s[n] == (a + "/")[n] == '/';
    forall k | |base| < k < |s| ensures s[k] != '/' {
      assert s[k] == name[k - |base| - 1];
      assert name[k - |base| - 1] in name;
    }
    assert s[..n] == (a + "/")[..n] == a;
    assert base[..n] == s[..n];
    if n < |base| {
      assert base[..n + 1] == s[..n + 1];
    }
  }

  lemma StripKeeps(s: string)
    requires s != "" && s[|s| - 1] != '/'
    ensures RStripSlash(s) == s
  {
  }

  /** Only slashes are stripped. */
  lemma {:induction false} StripLeavesSlashes(s: string)
    ensures forall k :: |RStripSlash(s)| <= k < |s| ==> s[k] == '/'
  {
    if s != "" && s[|s| - 1] == '/' {
      StripLeavesSlashes(s[..|s| - 1]);
    }
  }

  /** What follows a prefix, in a path one level further down. */
  lemma ChildRest(parentPath: string, name: string, a: string)
    requires StartsWith(parentPath, a + "/")
    ensures var s := parentPath + "/" + name;
            && StartsWith(s, a + "/")
            && s == (a + "/") + s[|a| + 1..]
            && s[|a| + 1..] == parentPath[|a| + 1..] + "/" + name
  {
    var s := parentPath + "/" + name;
    assert s == parentPath + ("/" + name);
    PrefixOfLonger(parentPath, "/" + name, a + "/");
    assert s == s[..|a| + 1] + s[|a| + 1..];
    assert s[|a| + 1..] == parentPath[|a| + 1..] + ("/" + name);
  }

  lemma ConcatPath(front: string, middle: string, name: string)
    ensures (front + middle) + "/" + name == front + (middle + "/" + name)
  {
  }

  // ---------- Names without a slash ----------

  lemma {:induction false} NoSlashNoOccurrence(s: string, pattern: string)
    requires '/' !in s && pattern != "" && pattern[|pattern| - 1] == '/'
    ensures !Occurs(s, pattern)
    decreases |s|
  {
    if |pattern| <= |s| {
      assert s[..|pattern|][|pattern| - 1] in s;
      NoSlashNoOccurrence(s[1..], pattern);
    }
  }

  /** An occurrence that ends in a slash cannot reach into a tail without one. */
  lemma {:induction false} ReplaceSplit(s: string, tail: string, from: string, to: string)
    requires '/' !in tail && from != "" && from[|from| - 1] == '/'
    ensures Replace(s + tail, from, to) == Replace(s, from, to) + tail
    decreases |s|
  {
    var whole := s + tail;
    if s == "" {
      assert whole == tail;
      NoSlashNoOccurrence(tail, from);
      ReplaceAbsent(tail, from, to);
    } else if |from| <= |whole| && whole[..|from|] == from {
      EndsBefore(s, tail, from);
      assert s[..|from|] == from && whole[|from|..] == s[|from|..] + tail;
      ReplaceSplit(s[|from|..], tail, from, to);
    } else {
      assert |from| <= |s| ==> s[..|from|] == whole[..|from|];
      assert whole[0] == s[0] && whole[1..] == s[1..] + tail;
      ReplaceSplit(s[1..], tail, from, to);
    }
  }

  lemma EndsBefore(s: string, tail: string, from: string)
    requires '/' !in tail && from != "" && from[|from| - 1] == '/' && StartsWith(s + tail, from)
    ensures |from| <= |s|
  {
    var whole := s + tail;
    assert whole[..|from|][|from| - 1] == '/';
    forall k | |s| <= k < |whole| ensures whole[k] != '/' {
      assert tail[k - |s|] in tail;
    }
  }

  // ---------- New paths that end in a slash ----------

  /** Behind the last rewritten occurrence, `k` characters from the end, nothing changes; so
      the last but one characters of `from` and `to` stand at the same distance from the end. */
  lemma {:induction false} LastOccurrence(s: string, from: string, to: string) returns (k: nat)
    requires |from| >= 2 && |to| >= 2 && Occurs(s, from)
    ensures |from| + k <= |s| && s[|s| - k - 2] == from[|from| - 2]
    ensures var r := Replace(s, from, to); |to| + k <= |r| && r[|r| - k - 2] == to[|to| - 2]
    decreases |s|
  {
    if s[..|from|] == from {
      var tail := s[|from|..];
      assert s == from + tail;
      if Occurs(tail, from) {
        k := LastOccurrence(tail, from, to);
        EndOfJoined(to, Replace(tail, from, to), k);
      } else {
        ReplaceAbsent(tail, from, to);
        k := |tail|;
      }
      assert Replace(s, from, to) == to + Replace(tail, from, to);
    } else {
      k := LastOccurrence(s[1..], from, to);
      EndOfJoined([s[0]], Replace(s[1..], from, to), k);
      assert Replace(s, from, to) == [s[0]] + Replace(s[1..], from, to);
    }
  }

  lemma EndOfJoined(front: string, back: string, k: nat)
    requires k + 2 <= |back|
    ensures (front + back)[|front + back| - k - 2] == back[|back| - k - 2]
  {
  }

  /** Slashes put in front of a rewritten string are never made up for by the rewriting,
      when the rewriting turns "x/" into "//". */
  lemma PaddingNeverFits(padding: string, s: string, from: string, to: string)
    requires padding != "" && |from| >= 2 && from[|from| - 2] != '/' && |to| >= 2 && to[|to| - 2] == '/'
    ensures padding + Replace(s, from, to) != s
  {
    if Occurs(s, from) {
      var k := LastOccurrence(s, from, to);
      var padded := padding + Replace(s, from, to);
      assert padded[|padded| - k - 2] == '/';
    } else {
      ReplaceAbsent(s, from, to);
    }
  }
}
