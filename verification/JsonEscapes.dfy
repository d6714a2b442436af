/**
  parse_string counts the characters of a string first and writes its contents into a buffer of that size. The
  two passes disagree about escapes that reach past the end of the string: when the contents fit and when not.
 */
module JsonEscapes {
  import opened JsonText
  import opened JsonGrammar

  // ----- the counting pass -----

  /** The counting pass from p comes by q. */
  predicate Passes(s: string, p: nat, q: nat) {
    && p <= q <= |s| && Count(s, p).Ok? && Count(s, q).Ok?
    && Count(s, q).next == Count(s, p).next && Count(s, q).value <= Count(s, p).value
  }

  /** One character, or a backslash with the character behind it. */
  lemma CountStep(s: string, p: nat)
    requires p < |s| && s[p] != QUOTE && s[p] != NUL && Count(s, p).Ok?
    ensures var n := if s[p] == BACKSLASH then p + 2 else p + 1;
            n <= |s| && Count(s, n).Ok? && Count(s, p).value == 1 + Count(s, n).value && Count(s, n).next == Count(s, p).next
  {
  }

  /** The end of the counting pass is a quote or the terminator, and not before its start. */
  lemma {:induction false} CountEnds(s: string, p: nat)
    requires p <= |s| && Count(s, p).Ok?
    ensures p <= Count(s, p).next <= |s|
    ensures At(s, p) == QUOTE || At(s, p) == NUL ==> Count(s, p).next == p
    decreases |s| - p
  {
    if At(s, p) != QUOTE && At(s, p) != NUL {
      CountStep(s, p);
      CountEnds(s, if s[p] == BACKSLASH then p + 2 else p + 1);
    }
  }

  /** Up to its end, the counting pass comes by every place or skips it as the second character of an escape. */
  lemma {:induction false} Crosses(s: string, p: nat, q: nat)
    requires p <= q <= |s| && Count(s, p).Ok? && q <= Count(s, p).next
    ensures Passes(s, p, q) || (p < q && s[q - 1] == BACKSLASH && Passes(s, p, q - 1))
    decreases q - p
  {
    if p < q {
      CountEnds(s, p);
      CountStep(s, p);
      var n := if s[p] == BACKSLASH then p + 2 else p + 1;
      if n <= q {
        Crosses(s, n, q);
      }
    }
  }

  // ----- the reading pass -----

  /** Where the counting pass is when the reading pass is at j: there, or at the backslash before. */
  function CountedFrom(j: nat, off: bool): (r: nat)
    requires off ==> j > 0
  {
    if off then j - 1 else j
  }

  ghost predicate Beside(s: string, j: nat, off: bool) {
    && j <= |s| && (off ==> 0 < j && s[j - 1] == BACKSLASH) && Count(s, CountedFrom(j, off)).Ok?
    && Body(s, j).Ok? && Body(s, j).next <= Count(s, CountedFrom(j, off)).next
  }

  /** The reading pass takes a step. */
  lemma BodyStep(s: string, j: nat)
    requires j < |s| && s[j] != QUOTE && s[j] != NUL && Body(s, j).Ok?
    ensures var (bytes, next) := if s[j] == BACKSLASH then Unescape(s, j) else ([s[j]], j + 1);
            && next <= |s| && Body(s, next).Ok? && Body(s, j).next == Body(s, next).next
            && Body(s, j).value == bytes + Body(s, next).value
  {
    hide Unescape;
  }

  /** Four characters that make a number are counted one by one. */
  lemma DigitsCounted(s: string, p: nat)
    requires p <= |s| && Hex4(s, p) > 0 && Count(s, p).Ok?
    ensures p + 4 <= |s| && Passes(s, p, p + 4) && Count(s, p).value == 4 + Count(s, p + 4).value
  {
    hide Count;
    CountStep(s, p);
    CountStep(s, p + 1);
    CountStep(s, p + 2);
    CountStep(s, p + 3);
  }

  /**
    What an escape of digits writes is paid for by what was counted for it: the counting pass is behind the letter u
    and comes by the place behind the digits, or by the one before.
   */
  lemma HexPaid(s: string, j: nat)
    requires j + 2 <= |s| && s[j] == BACKSLASH && s[j + 1] == 'u' && Count(s, j + 2).Ok?
    requires UnescapeHex(s, j).1 <= Count(s, j + 2).next
    ensures UnescapeHex(s, j).1 <= |s|
    ensures var (bytes, n) := UnescapeHex(s, j);
            || (Passes(s, j + 2, n) && |bytes| + Count(s, n).value <= Count(s, j + 2).value)
            || (s[n - 1] == BACKSLASH && Passes(s, j + 2, n - 1) && |bytes| + Count(s, n - 1).value <= Count(s, j + 2).value)
  {
    hide Count, Hex4, Utf8;
    CountEnds(s, j + 2);
    var uc := Hex4(s, j + 2);
    if uc > 0 {
      DigitsCounted(s, j + 2);
      SmallUtf8(uc);
      if 0xD800 <= uc <= 0xDBFF && At(s, j + 6) == BACKSLASH && At(s, j + 7) == 'u' {
        CountStep(s, j + 6);
        PairPaid(s, j);
      }
    } else {
      Crosses(s, j + 2, j + 6);
    }
  }

  lemma PairPaid(s: string, j: nat)
    requires j + 8 <= |s| && Count(s, j + 8).Ok? && j + 12 <= Count(s, j + 8).next
    ensures j + 12 <= |s| && (Passes(s, j + 8, j + 12) || (s[j + 11] == BACKSLASH && Passes(s, j + 8, j + 11)))
    ensures Hex4(s, j + 8) > 0 ==> Passes(s, j + 8, j + 12) && Count(s, j + 8).value == 4 + Count(s, j + 12).value
  {
    hide Count, Hex4;
    CountEnds(s, j + 8);
    if Hex4(s, j + 8) > 0 {
      DigitsCounted(s, j + 8);
    } else {
      Crosses(s, j + 8, j + 12);
    }
  }

  lemma SmallUtf8(uc: nat)
    requires uc < 0x10000
    ensures |Utf8(uc)| <= 3
  {
  }

  /**
    As long as the reading pass does not go beyond where the counting pass ended, what it writes fits the buffer; also
    when it reads other escapes than were counted.
   */
  lemma {:induction false} FitsUnlessPast(s: string, j: nat, off: bool)
    requires Beside(s, j, off)
    ensures |Body(s, j).value| <= Count(s, CountedFrom(j, off)).value
    decreases |s| - j, 1
  {
    hide Count, Body, UnescapeHex;
    var c := CountedFrom(j, off);
    if off {
      CountStep(s, c);
    }
    CountEnds(s, if off then j + 1 else j);
    if At(s, j) == QUOTE || At(s, j) == NUL {
      BodyEnd(s, j);
    } else {
      BodyStep(s, j);
      if s[j] != BACKSLASH {
        if !off {
          CountStep(s, j);
        }
        FitsUnlessPast(s, j + 1, false);
      } else {
        FitsEscape(s, j, off);
      }
    }
  }

  lemma {:induction false} FitsEscape(s: string, j: nat, off: bool)
    requires Beside(s, j, off) && j < |s| && s[j] == BACKSLASH
    ensures |Body(s, j).value| <= Count(s, CountedFrom(j, off)).value
    decreases |s| - j, 0
  {
    hide Count, Body, UnescapeHex;
    BodyStep(s, j);
    var n := Unescape(s, j).1;
    if off {
      CountStep(s, j - 1);
      CountEnds(s, j + 1);
      CountStep(s, j + 1);
    } else {
      CountStep(s, j);
    }
    if At(s, j + 1) == 'u' {
      HexPaid(s, j);
      FitsUnlessPast(s, n, !(Passes(s, j + 2, n) && |Unescape(s, j).0| + Count(s, n).value <= Count(s, j + 2).value));
    } else {
      FitsUnlessPast(s, n, off && s[j + 1] == BACKSLASH);
    }
  }

  lemma BodyEnd(s: string, j: nat)
    requires j <= |s| && (At(s, j) == QUOTE || At(s, j) == NUL)
    ensures Body(s, j) == Ok([], j)
  {
  }

  // ----- strings -----

  /** The reading pass ends no later than the counting pass. */
  predicate EndsInTime(s: string, i: nat)
    requires i <= |s|
  {
    Count(s, i).Ok? && Body(s, i).Ok? && Body(s, i).next <= Count(s, i).next
  }

  /** A string that is read to its end and no further is never written past its buffer, and is taken also without a closing quote. */
  lemma InTimeFits(s: string, i: nat)
    requires i < |s| && s[i] == QUOTE && EndsInTime(s, i + 1)
    ensures var b := Body(s, i + 1); StringAt(s, i) == Ok(b.value, if At(s, b.next) == QUOTE then b.next + 1 else b.next)
  {
    FitsUnlessPast(s, i + 1, false);
  }

  predicate FourPlain(s: string, i: nat)
    ensures FourPlain(s, i) ==> i + 4 <= |s|
  {
    i + 4 <= |s| && forall k :: i <= k < i + 4 ==> s[k] != QUOTE && s[k] != BACKSLASH && s[k] != NUL
  }

  /** A closed string in which the letter u of an escape has four characters of the string behind it, digits or not. */
  predicate Complete(s: string, i: nat)
    requires i <= |s|
    decreases |s| - i
  {
    if At(s, i) == QUOTE then true
    else if At(s, i) == NUL then false
    else if s[i] != BACKSLASH then Complete(s, i + 1)
    else if At(s, i + 1) == NUL then false
    else if s[i + 1] == 'u' then FourPlain(s, i + 2) && Complete(s, i + 6)
    else Complete(s, i + 2)
  }

  /** Both passes end such a string at its quote, so its contents fit. */
  lemma {:induction false} CompleteFits(s: string, i: nat)
    requires i <= |s| && Complete(s, i)
    ensures Body(s, i).Ok? && Count(s, i).Ok? && Body(s, i).next == Count(s, i).next
    ensures |Body(s, i).value| <= Count(s, i).value && At(s, Body(s, i).next) == QUOTE
    decreases |s| - i
  {
    hide UnescapeHex;
    if At(s, i) != QUOTE {
      if s[i] != BACKSLASH {
        CompleteFits(s, i + 1);
      } else if s[i + 1] != 'u' {
        CompleteFits(s, i + 2);
      } else {
        PlainCounted(s, i + 2);
        CompleteFits(s, i + 6);
        HexPlace(s, i);
        if UnescapeHex(s, i).1 == i + 12 {
          PlainCounted(s, i + 8);
          CompleteFits(s, i + 12);
        }
        FitsUnlessPast(s, i, false);
      }
    }
  }

  lemma PlainCounted(s: string, i: nat)
    requires FourPlain(s, i)
    ensures Count(s, i).Ok? <==> Count(s, i + 4).Ok?
    ensures Count(s, i).Ok? ==> Count(s, i).next == Count(s, i + 4).next
  {
    assert Count(s, i + 3).Ok? <==> Count(s, i + 4).Ok?;
    assert Count(s, i + 2).Ok? <==> Count(s, i + 3).Ok?;
    assert Count(s, i + 1).Ok? <==> Count(s, i + 2).Ok?;
  }

  /** The reading pass goes on behind four characters, or behind those of a second escape. */
  lemma HexPlace(s: string, i: nat)
    requires i + 6 <= |s| && s[i] == BACKSLASH && s[i + 1] == 'u' && Complete(s, i + 6)
    ensures var n := UnescapeHex(s, i).1;
            n == i + 6 || (n == i + 12 <= |s| && s[i + 6] == BACKSLASH && s[i + 7] == 'u' && FourPlain(s, i + 8) && Complete(s, i + 12))
  {
    hide Hex4, Utf8;
  }

  // ----- strings that overrun -----

  /** A closed string whose escape lacks its digits: one character is counted and three bytes are written. */
  lemma Overflow(s: string)
    requires s == [QUOTE, BACKSLASH, 'u', QUOTE, 'A', 'A', 'A', 'A', 'A', 'A']
    ensures Count(s, 1) == Ok(1, 3) && Body(s, 1) == Ok("AAA", 10) && StringAt(s, 0) == Overrun
  {
    BodyEnd(s, 10);
    BodyStep(s, 9);
    BodyStep(s, 8);
    BodyStep(s, 7);
    assert ['A'] + (['A'] + (['A'] + [])) == "AAA";
    assert Body(s, 7).value == "AAA" && [] + "AAA" == "AAA";
    assert Hex4(s, 3) == 0;
    assert Count(s, 3) == Ok(0, 3);
  }

  /** Going on past the end does no harm if little is found there. */
  lemma PastButFits(s: string)
    requires s == [QUOTE, BACKSLASH, 'u', QUOTE, 'A', 'A', 'A', QUOTE]
    ensures !EndsInTime(s, 1) && StringAt(s, 0) == Ok([], 8)
  {
    assert Body(s, 7) == Ok([], 7);
    assert Hex4(s, 3) == 0;
    assert Count(s, 3) == Ok(0, 3);
  }
}
