/**
  The wildcard matcher of f_findfirst and f_findnext: it stops retrying when the name is used up, and
  recurses once per block of wildcards, but holds exactly when the name matches the pattern.
 */
module FatPattern {

  /** A character of the code page, one or two bytes, never zero. */
  type Char = c: int | 0 < c < 0x1_0000 witness 1

  const ONE: Char := 0x3F
  const ANY: Char := 0x2A

  /** get_achar: ASCII letters are taken in upper case. */
  function Upper(c: Char): (r: Char) {
    if 0x61 <= c <= 0x7A then c - 0x20 else c
  }

  predicate Wild(c: Char) {
    c == ONE || c == ANY
  }

  /** A question mark stands for any character, an asterisk for any number of them, all others for themselves. */
  ghost predicate Match(pat: seq<Char>, nam: seq<Char>)
    decreases |pat|
  {
    if pat == [] then nam == []
    else if pat[0] == ANY then exists k :: 0 <= k <= |nam| && Match(pat[1..], nam[k..])
    else nam != [] && (pat[0] == ONE || Upper(pat[0]) == Upper(nam[0])) && Match(pat[1..], nam[1..])
  }

  /** What the matcher is asked: the pattern matches behind so many characters, or behind at least so many. */
  ghost predicate Hits(pat: seq<Char>, nam: seq<Char>, skip: nat, inf: bool) {
    if inf then exists k :: skip <= k <= |nam| && Match(pat, nam[k..])
    else skip <= |nam| && Match(pat, nam[skip..])
  }

  /** A block of wildcards asks for as many characters as it has question marks, or for at least as many. */
  function Marks(block: seq<Char>): (r: nat) {
    if block == [] then 0 else Marks(block[1..]) + if block[0] == ONE then 1 else 0
  }

  lemma {:induction false} BlockMatches(block: seq<Char>, pat: seq<Char>, nam: seq<Char>)
    requires forall i :: 0 <= i < |block| ==> Wild(block[i])
    ensures Match(block + pat, nam) <==> Hits(pat, nam, Marks(block), ANY in block)
    decreases |block|
  {
    if block == [] {
      assert block + pat == pat && nam[0..] == nam;
    } else {
      var rest := block[1..];
      assert (block + pat)[1..] == rest + pat && block == [block[0]] + rest;
      if block[0] == ANY {
        AnyBlock(block, pat, nam);
      } else if nam != [] {
        BlockMatches(rest, pat, nam[1..]);
        OneMore(pat, nam, Marks(rest), ANY in rest);
      }
    }
  }

  lemma AnyBlock(block: seq<Char>, pat: seq<Char>, nam: seq<Char>)
    requires block != [] && block[0] == ANY && forall i :: 0 <= i < |block| ==> Wild(block[i])
    ensures Match(block + pat, nam) <==> Hits(pat, nam, Marks(block), true)
    decreases |block|, 0
  {
    var rest, m := block[1..], Marks(block);
    assert (block + pat)[1..] == rest + pat;
    forall k | 0 <= k <= |nam|
      ensures Match(rest + pat, nam[k..]) <==> Hits(pat, nam[k..], Marks(rest), ANY in rest)
    {
      BlockMatches(rest, pat, nam[k..]);
    }
    if Match(block + pat, nam) {
      var k :| 0 <= k <= |nam| && Match(rest + pat, nam[k..]);
      Deeper(pat, nam, k, m, ANY in rest);
    }
    if Hits(pat, nam, m, true) {
      var k :| m <= k <= |nam| && Match(pat, nam[k..]);
      assert nam[k - m..][m..] == nam[k..];
      assert Hits(pat, nam[k - m..], m, ANY in rest);
      assert Match(rest + pat, nam[k - m..]);
    }
  }

  lemma Deeper(pat: seq<Char>, nam: seq<Char>, k: nat, m: nat, inf: bool)
    requires k <= |nam| && Hits(pat, nam[k..], m, inf)
    ensures Hits(pat, nam, m, true)
  {
    var j := m;
    if inf {
      j :| m <= j <= |nam[k..]| && Match(pat, nam[k..][j..]);
    }
    assert nam[k..][j..] == nam[k + j..];
  }

  lemma OneMore(pat: seq<Char>, nam: seq<Char>, m: nat, inf: bool)
    requires nam != []
    ensures Hits(pat, nam[1..], m, inf) <==> Hits(pat, nam, m + 1, inf)
  {
    forall k | 0 <= k < |nam|
      ensures nam[1..][k..] == nam[k + 1..]
    {
    }
    if inf && Hits(pat, nam[1..], m, inf) {
      var k :| m <= k <= |nam[1..]| && Match(pat, nam[1..][k..]);
      assert Match(pat, nam[k + 1..]);
    }
    if inf && Hits(pat, nam, m + 1, inf) {
      var k :| m + 1 <= k <= |nam| && Match(pat, nam[k..]);
      assert nam[1..][k - 1..] == nam[k..];
    }
  }

  // ----- literal prefixes -----

  /** The first m pattern characters are no wildcards and stand in the name from place i on. */
  predicate Literal(pat: seq<Char>, nam: seq<Char>, i: nat, m: nat) {
    && m <= |pat| && i + m <= |nam|
    && forall j :: 0 <= j < m ==> !Wild(pat[j]) && Upper(pat[j]) == Upper(nam[i + j])
  }

  lemma {:induction false} LiteralMatch(pat: seq<Char>, nam: seq<Char>, i: nat, m: nat)
    requires Literal(pat, nam, i, m)
    ensures Match(pat, nam[i..]) <==> Match(pat[m..], nam[i + m..])
    decreases m
  {
    if m == 0 {
      assert pat[0..] == pat;
    } else {
      assert !Wild(pat[0]) && nam[i..][1..] == nam[i + 1..];
      assert forall j :: 0 <= j < m - 1 ==> pat[1..][j] == pat[j + 1] && !Wild(pat[j + 1]);
      LiteralMatch(pat[1..], nam, i + 1, m - 1);
      assert pat[1..][m - 1..] == pat[m..];
    }
  }

  /** A name that matches has a character for every pattern character that is not an asterisk. */
  lemma {:induction false} NeedsChars(pat: seq<Char>, nam: seq<Char>, m: nat)
    requires m <= |pat| && (forall j :: 0 <= j < m ==> pat[j] != ANY) && Match(pat, nam)
    ensures |nam| >= m
    decreases m
  {
    if m > 0 {
      NeedsChars(pat[1..], nam[1..], m - 1);
    }
  }

  /** Once the name is used up inside the literal prefix, no later start can match. */
  lemma NoLater(pat: seq<Char>, nam: seq<Char>, i: nat, m: nat, k: nat)
    requires m <= |pat| && (forall j :: 0 <= j < m ==> !Wild(pat[j])) && i < k <= |nam| && |nam| <= i + m
    ensures !Match(pat, nam[k..])
  {
    if Match(pat, nam[k..]) {
      NeedsChars(pat, nam[k..], m);
    }
  }

  // ----- the matcher -----

  /** pattern_matching */
  method Matching(pat: seq<Char>, nam: seq<Char>, skip: nat, inf: bool) returns (r: bool)
    ensures r <==> Hits(pat, nam, skip, inf)
    decreases |pat|, 1
  {
    hide Match;
    var start: nat, left: nat := 0, skip;
    while left > 0
      invariant start <= |nam| && start + left == skip
    {
      left := left - 1;
      if start == |nam| {
        return false;
      }
      start := start + 1;
    }
    if pat == [] && inf {
      EmptyMatches(nam);
      return true;
    }
    var more := true;
    while more
      invariant skip <= start && (more ==> start <= |nam|) && (!inf ==> more ==> start == skip)
      invariant forall k :: skip <= k < start && k <= |nam| ==> !Match(pat, nam[k..])
      invariant !more ==> start > skip && (inf ==> forall k :: start <= k <= |nam| ==> !Match(pat, nam[k..]))
      decreases |nam| - start, more
    {
      var matched, ended := Branch(pat, nam, start);
      if matched {
        return true;
      }
      start := start + 1;
      more := inf && !ended;
    }
    r := false;
  }

  lemma EmptyMatches(nam: seq<Char>)
    ensures Match([], nam[|nam|..])
  {
  }

  /** One attempt from a place of the name; ended says that the name was used up when it failed. */
  method Branch(pat: seq<Char>, nam: seq<Char>, start: nat) returns (matched: bool, ended: bool)
    requires start <= |nam|
    ensures matched <==> Match(pat, nam[start..])
    ensures start == |nam| && !matched ==> ended
    ensures !matched && ended ==> forall k :: start < k <= |nam| ==> !Match(pat, nam[k..])
    decreases |pat|, 0
  {
    hide Match;
    var pp: nat, np: nat := 0, start;
    ghost var m: nat := 0;
    while true
      invariant pp == m && np == start + m && Literal(pat, nam, start, m)
      decreases |pat| - pp
    {
      LiteralMatch(pat, nam, start, m);
      if pp < |pat| && Wild(pat[pp]) {
        var nm: nat, nx, q: nat := 0, false, pp;
        while q < |pat| && Wild(pat[q])
          invariant pp <= q <= |pat| && (forall i :: pp <= i < q ==> Wild(pat[i]))
          invariant nm == Marks(pat[pp..q]) && (nx <==> ANY in pat[pp..q])
          invariant q > pp || Wild(pat[q])
        {
          MarksMore(pat, pp, q);
          if pat[q] == ONE {
            nm := nm + 1;
          } else {
            nx := true;
          }
          q := q + 1;
        }
        BlockMatches(pat[pp..q], pat[q..], nam[np..]);
        assert pat[pp..] == pat[pp..q] + pat[q..];
        matched := Matching(pat[q..], nam[np..], nm, nx);
        ended := np == |nam|;
        break;
      }
      if pp == |pat| || np == |nam| || Upper(pat[pp]) != Upper(nam[np]) {
        matched := pp == |pat| && np == |nam|;
        ended := np == |nam|;
        EndOrDiffers(pat[pp..], nam[np..]);
        break;
      }
      pp, np, m := pp + 1, np + 1, m + 1;
    }
    forall k | start < k <= |nam| && !matched && ended
      ensures !Match(pat, nam[k..])
    {
      NoLater(pat, nam, start, m, k);
    }
  }

  lemma MarksMore(pat: seq<Char>, i: nat, j: nat)
    requires i <= j < |pat|
    ensures Marks(pat[i..j + 1]) == Marks(pat[i..j]) + (if pat[j] == ONE then 1 else 0)
    ensures ANY in pat[i..j + 1] <==> ANY in pat[i..j] || pat[j] == ANY
  {
    MarksAppend(pat[i..j], pat[j]);
    assert pat[i..j + 1] == pat[i..j] + [pat[j]];
  }

  lemma {:induction false} MarksAppend(block: seq<Char>, c: Char)
    ensures Marks(block + [c]) == Marks(block) + (if c == ONE then 1 else 0)
    decreases |block|
  {
    if block == [] {
      assert block + [c] == [c];
      assert Marks([c][1..]) == 0;
    } else {
      assert (block + [c])[1..] == block[1..] + [c];
      MarksAppend(block[1..], c);
    }
  }

  /** A pattern without a wildcard in front fails at the end of one of the two, or where they differ. */
  lemma EndOrDiffers(pat: seq<Char>, nam: seq<Char>)
    requires pat == [] || !Wild(pat[0])
    requires pat == [] || nam == [] || Upper(pat[0]) != Upper(nam[0])
    ensures Match(pat, nam) <==> pat == [] && nam == []
  {
  }

  /** What f_findnext asks: the whole name against the whole pattern. */
  method Find(pat: seq<Char>, nam: seq<Char>) returns (r: bool)
    ensures r <==> Match(pat, nam)
  {
    r := Matching(pat, nam, 0, false);
    assert nam[0..] == nam;
  }

  /** Equal, or the same ASCII letter in either case. */
  predicate SameLetter(a: Char, b: Char) {
    a == b || (0x41 <= a <= 0x5A && b == a + 0x20) || (0x61 <= a <= 0x7A && b == a - 0x20)
  }

  /** A pattern without wildcards matches the names that are the same up to the case of their ASCII letters, and no others. */
  lemma {:induction false} LiteralMatches(pat: seq<Char>, nam: seq<Char>)
    requires forall i :: 0 <= i < |pat| ==> !Wild(pat[i])
    ensures Match(pat, nam) <==> |pat| == |nam| && forall i :: 0 <= i < |pat| ==> SameLetter(pat[i], nam[i])
    decreases |pat|
  {
    if pat != [] && nam != [] {
      LiteralMatches(pat[1..], nam[1..]);
      assert pat == [pat[0]] + pat[1..] && nam == [nam[0]] + nam[1..];
    }
  }
}
