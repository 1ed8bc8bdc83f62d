/** First-occurrence search and `str.partition`. */
module TextSearch {
  import opened Wrappers

  predicate OccursAt(s: string, m: string, i: nat) {
    i + |m| <= |s| && s[i..i + |m|] == m
  }

  ghost predicate Contains(s: string, m: string) {
    exists i: nat :: OccursAt(s, m, i)
  }

  ghost predicate FirstAt(s: string, m: string, i: nat) {
    OccursAt(s, m, i) && forall j: nat :: j < i ==> !OccursAt(s, m, j)
  }

  function Find(s: string, m: string): Option<nat> {
    if |s| < |m| then None
    else if s[..|m|] == m then Some(0)
    else
      match Find(s[1..], m)
      case None => None
      case Some(i) => Some(i + 1)
  }

  /** The text before the first `m`, `m` itself, and the text after it; all of `s` and two empty texts if there is none. */
  function Partition(s: string, m: string): (string, string, string) {
    match Find(s, m)
    case None => (s, "", "")
    case Some(i) => if i + |m| <= |s| then (s[..i], m, s[i + |m|..]) else (s, "", "")
  }

  lemma OccursLater(s: string, m: string, i: nat)
    requires s != ""
    ensures OccursAt(s, m, i + 1) <==> OccursAt(s[1..], m, i)
  {
    if i + 1 + |m| <= |s| {
      assert s[1..][i..i + |m|] == s[i + 1..i + 1 + |m|];
    }
  }

  lemma {:induction false} FindIsFirst(s: string, m: string)
    ensures Find(s, m).Some? <==> Contains(s, m)
    ensures Find(s, m).Some? ==> FirstAt(s, m, Find(s, m).value)
  {
    if |m| <= |s| {
      if s[..|m|] == m {
        assert OccursAt(s, m, 0);
      } else {
        FindIsFirst(s[1..], m);
        assert !OccursAt(s, m, 0);
        forall i: nat ensures OccursAt(s, m, i + 1) <==> OccursAt(s[1..], m, i) {
          OccursLater(s, m, i);
        }
        forall i: nat ensures OccursAt(s, m, i) <==> 0 < i && OccursAt(s[1..], m, i - 1) {
          if 0 < i { OccursLater(s, m, i - 1); }
        }
        if Contains(s[1..], m) {
          var i: nat :| OccursAt(s[1..], m, i);
          assert OccursAt(s, m, i + 1);
        }
      }
    }
  }

  lemma FirstIsUnique(s: string, m: string, i: nat, j: nat)
    requires FirstAt(s, m, i) && FirstAt(s, m, j)
    ensures i == j
  {
  }

  lemma PartitionAtFirst(s: string, m: string, i: nat)
    requires FirstAt(s, m, i)
    ensures Contains(s, m) && Find(s, m) == Some(i)
    ensures Partition(s, m) == (s[..i], m, s[i + |m|..])
  {
    FindIsFirst(s, m);
    FirstIsUnique(s, m, i, Find(s, m).value);
  }

  lemma CharAt(s: string, m: string, i: nat, k: nat)
    ensures OccursAt(s, m, i) && k < |m| ==> s[i + k] == m[k]
  {
    if i + |m| <= |s| && k < |m| {
      assert s[i..i + |m|][k] == s[i + k];
    }
  }

  lemma OccursInFront(a: string, b: string, m: string, i: nat)
    requires i + |m| <= |a|
    ensures OccursAt(a + b, m, i) <==> OccursAt(a, m, i)
  {
    assert (a + b)[i..i + |m|] == a[i..i + |m|];
  }

  lemma OccursBehind(a: string, b: string, m: string, i: nat)
    ensures OccursAt(a + b, m, |a| + i) <==> OccursAt(b, m, i)
  {
    if i + |m| <= |b| {
      assert (a + b)[|a| + i..|a| + i + |m|] == b[i..i + |m|];
    }
  }

  /** No occurrence reaches across a character the pattern does not have. */
  lemma NotAcross(s: string, m: string, i: nat, p: nat)
    requires p < |s| && s[p] !in m
    ensures OccursAt(s, m, i) ==> i + |m| <= p || p < i
  {
    if i <= p < i + |m| {
      CharAt(s, m, i, p - i);
    }
  }

  /** Texts that agree up to the end of an occurrence agree on whether it is the first. */
  lemma FirstInPrefix(s: string, t: string, m: string, i: nat)
    requires FirstAt(s, m, i)
    requires i + |m| <= |t| && s[..i + |m|] == t[..i + |m|]
    ensures FirstAt(t, m, i)
  {
    forall j: nat | j <= i ensures OccursAt(t, m, j) <==> OccursAt(s, m, j) {
      assert s[j..j + |m|] == s[..i + |m|][j..j + |m|] == t[..i + |m|][j..j + |m|] == t[j..j + |m|];
    }
  }

  /** A character the pattern does not have cannot lie in an occurrence, so what is first behind it stays first. */
  lemma FirstAfterSeparator(a: string, c: char, t: string, m: string, i: nat)
    requires m != "" && c !in m && !Contains(a, m) && FirstAt(t, m, i)
    ensures FirstAt(a + [c] + t, m, |a| + 1 + i)
  {
    var s := a + [c] + t;
    assert |a + [c]| == |a| + 1;
    OccursBehind(a + [c], t, m, i);
    forall j: nat | j < |a| + 1 + i ensures !OccursAt(s, m, j) {
      SplitAtSeparator(a, c, t, m, j);
    }
  }

  lemma SplitAtSeparator(a: string, c: char, b: string, m: string, j: nat)
    requires m != "" && c !in m
    ensures OccursAt(a + [c] + b, m, j) <==> OccursAt(a, m, j) || (|a| < j && OccursAt(b, m, j - |a| - 1))
  {
    var s := a + [c] + b;
    assert s == a + ([c] + b) && s[|a|] == c;
    assert |a + [c]| == |a| + 1;
    NotAcross(s, m, j, |a|);
    if j + |m| <= |a| {
      OccursInFront(a, [c] + b, m, j);
    }
    if |a| < j {
      OccursBehind(a + [c], b, m, j - |a| - 1);
    }
  }

  /** No occurrence starts in a text without the pattern's first character. */
  lemma FirstAfterText(a: string, t: string, m: string, i: nat)
    requires m != "" && m[0] !in a && FirstAt(t, m, i)
    ensures FirstAt(a + t, m, |a| + i)
  {
    OccursBehind(a, t, m, i);
    forall j: nat | j < |a| + i ensures !OccursAt(a + t, m, j) {
      CharAt(a + t, m, j, 0);
      if |a| <= j {
        OccursBehind(a, t, m, j - |a|);
      } else {
        assert a[j] in a;
      }
    }
  }

  lemma AbsentWithoutFirst(s: string, m: string)
    requires m != "" && m[0] !in s
    ensures !Contains(s, m)
  {
    forall i: nat ensures !OccursAt(s, m, i) {
      CharAt(s, m, i, 0);
    }
  }

  /** A separator splits the search in two. */
  lemma ContainsAcross(a: string, c: char, b: string, m: string)
    requires c !in m && m != ""
    ensures Contains(a + [c] + b, m) <==> Contains(a, m) || Contains(b, m)
  {
    var s := a + [c] + b;
    forall j: nat
      ensures OccursAt(s, m, j) <==> OccursAt(a, m, j) || (|a| < j && OccursAt(b, m, j - |a| - 1))
    {
      SplitAtSeparator(a, c, b, m, j);
    }
    if Contains(a, m) {
      var i: nat :| OccursAt(a, m, i);
      assert OccursAt(s, m, i);
    }
    if Contains(b, m) {
      var i: nat :| OccursAt(b, m, i);
      assert OccursAt(b, m, |a| + 1 + i - |a| - 1);
      assert OccursAt(s, m, |a| + 1 + i);
    }
  }

  /** A character that the pattern does not start with adds no occurrence in front, */
  lemma NotAtFront(c: char, s: string, m: string)
    requires m != "" && m[0] != c
    ensures Contains([c] + s, m) <==> Contains(s, m)
  {
    var t := [c] + s;
    assert t[1..] == s;
    CharAt(t, m, 0, 0);
    forall i: nat ensures OccursAt(t, m, i + 1) <==> OccursAt(s, m, i) {
      OccursLater(t, m, i);
    }
    if Contains(t, m) {
      var i: nat :| OccursAt(t, m, i);
      assert i != 0;
      assert OccursAt(t, m, (i - 1) + 1) && OccursAt(s, m, i - 1);
    }
    if Contains(s, m) {
      var i: nat :| OccursAt(s, m, i);
      assert OccursAt(t, m, i + 1);
    }
  }

  /** and one that it does not end with adds none at the back. */
  lemma NotAtBack(s: string, c: char, m: string)
    requires m != "" && m[|m| - 1] != c
    ensures Contains(s + [c], m) <==> Contains(s, m)
  {
    var t := s + [c];
    forall i: nat ensures OccursAt(t, m, i) <==> OccursAt(s, m, i) {
      CharAt(t, m, i, |m| - 1);
      assert t[|s|] == c;
      if i + |m| <= |s| {
        OccursInFront(s, [c], m, i);
      }
    }
    if Contains(t, m) {
      var i: nat :| OccursAt(t, m, i);
      assert OccursAt(s, m, i);
    }
    if Contains(s, m) {
      var i: nat :| OccursAt(s, m, i);
      assert OccursAt(t, m, i);
    }
  }

  lemma ContainsInPart(s: string, m: string, lo: nat, hi: nat)
    requires lo <= hi <= |s| && Contains(s[lo..hi], m)
    ensures Contains(s, m)
  {
    var part := s[lo..hi];
    var i: nat :| OccursAt(part, m, i);
    assert forall k :: 0 <= k < |part| ==> part[k] == s[lo + k];
    assert s[lo + i..lo + i + |m|] == part[i..i + |m|];
    assert OccursAt(s, m, lo + i);
  }

  lemma ContainsInFront(a: string, b: string, m: string)
    requires Contains(a, m)
    ensures Contains(a + b, m)
  {
    var i: nat :| OccursAt(a, m, i);
    OccursInFront(a, b, m, i);
    assert OccursAt(a + b, m, i);
  }

  lemma ContainsBehind(a: string, b: string, m: string)
    requires Contains(b, m)
    ensures Contains(a + b, m)
  {
    var i: nat :| OccursAt(b, m, i);
    OccursBehind(a, b, m, i);
    assert OccursAt(a + b, m, |a| + i);
  }

  lemma PartitionOf(before: string, m: string, after: string)
    requires FirstAt(before + m + after, m, |before|)
    ensures Contains(before + m + after, m) && Find(before + m + after, m).Some?
    ensures Partition(before + m + after, m) == (before, m, after)
  {
    var s := before + m + after;
    PartitionAtFirst(s, m, |before|);
    assert s[..|before|] == before && s[|before| + |m|..] == after;
  }
}
