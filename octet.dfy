/**
 The per-keystroke validator of the "ip" mask (`i[i[i]].j[j[j]].k[k[k]].l[l[l]]`):
 before a character is committed at position `pos` of the mask buffer, it
 looks back at most two buffer positions, stopping at a '.', left-pads the
 incoming characters with '0' to a window, and accepts when the window
 contains a match of `25[0-5]|2[0-4][0-9]|[01][0-9][0-9]`.
 */
module IpOctet {

  predicate IsDigit(c: char) {
    '0' <= c <= '9'
  }

  /**
   The string the validator tests: `chrs` preceded by buffer[pos - 2] and
   buffer[pos - 1] while those exist and are not '.', padded with '0'.
   */
  function Window(buffer: seq<char>, pos: int, chrs: string): (w: string)
    requires pos <= |buffer|
    ensures |w| == |chrs| + 2 && w[2..] == chrs
    ensures w[0] != '.' && w[1] != '.'
  {
    if pos - 1 > -1 && buffer[pos - 1] != '.' then
      var withPrevious := [buffer[pos - 1]] + chrs;
      if pos - 2 > -1 && buffer[pos - 2] != '.' then [buffer[pos - 2]] + withPrevious
      else "0" + withPrevious
    else "00" + chrs
  }

  /** The characters of the octet typed so far: those after the last '.' of `prefix`. */
  function OctetSoFar(prefix: seq<char>): (t: seq<char>)
    ensures '.' !in t && |t| <= |prefix|
  {
    if |prefix| == 0 || prefix[|prefix| - 1] == '.' then []
    else OctetSoFar(prefix[..|prefix| - 1]) + [prefix[|prefix| - 1]]
  }

  /**
   The octet typed so far is the longest '.'-free suffix of the prefix:
   a suffix of it, preceded by a '.' or by nothing.
   */
  lemma {:induction false} OctetSoFarIsSuffix(prefix: seq<char>)
    ensures var t := OctetSoFar(prefix);
      && t == prefix[|prefix| - |t|..]
      && (|t| < |prefix| ==> prefix[|prefix| - |t| - 1] == '.')
  {
    if |prefix| > 0 && prefix[|prefix| - 1] != '.' {
      var init := prefix[..|prefix| - 1];
      OctetSoFarIsSuffix(init);
      var u := OctetSoFar(init);
      assert prefix[|prefix| - |u| - 1..] == init[|init| - |u|..] + [prefix[|prefix| - 1]];
    }
  }

  /** The last two characters of `t`, left-padded with '0' when it is shorter. */
  function LastTwoPadded(t: seq<char>): (r: seq<char>)
    ensures |r| == 2
  {
    if |t| >= 2 then t[|t| - 2..]
    else if |t| == 1 then ['0', t[0]]
    else "00"
  }

  /**
   One alternative of the regex matches the three characters from index `k`
   on; every match is three digits, the first of them at most 2.
   */
  predicate MatchesAt(w: string, k: nat)
    requires k + 3 <= |w|
    ensures MatchesAt(w, k) ==> IsDigit(w[k]) && IsDigit(w[k + 1]) && IsDigit(w[k + 2]) && w[k] <= '2'
  {
    var a, b, c := w[k], w[k + 1], w[k + 2];
    || (a == '2' && b == '5' && '0' <= c <= '5')
    || (a == '2' && '0' <= b <= '4' && IsDigit(c))
    || ((a == '0' || a == '1') && IsDigit(b) && IsDigit(c))
  }

  /**
   `RegExp.test` of the unanchored pattern: some three-character slice
   matches. A shorter string never matches, and on a string of exactly three
   characters the test is a match of the whole string.
   */
  predicate PatternFound(w: string)
    ensures |w| < 3 ==> !PatternFound(w)
    ensures |w| == 3 ==> (PatternFound(w) <==> MatchesAt(w, 0))
  {
    exists k: nat :: k + 3 <= |w| && MatchesAt(w, k)
  }

  /**
   ipValidator: the verdict on committing `chrs` at `pos`; the buffer is only
   read. For one incoming digit, with only digits and '.' before `pos`, the
   window is three digits and the verdict is "its value is at most 255".
   */
  function IpValidator(chrs: string, buffer: seq<char>, pos: int): (ok: bool)
    requires pos <= |buffer|
    ensures |chrs| == 1 && IsDigit(chrs[0]) && (forall j :: 0 <= j < pos ==> buffer[j] == '.' || IsDigit(buffer[j])) ==>
      var w := Window(buffer, pos, chrs);
      IsDigit(w[0]) && IsDigit(w[1]) && (ok <==> Value3(w) <= 255)
  {
    var w := Window(buffer, pos, chrs);
    PatternIffAtMost255(w);
    PatternFound(w)
  }

  /** The numeric value of a decimal digit character. */
  function DigitValue(c: char): int
    requires IsDigit(c)
  {
    c as int - '0' as int
  }

  /** The value of a three-digit decimal string. */
  function Value3(w: string): int
    requires |w| == 3 && IsDigit(w[0]) && IsDigit(w[1]) && IsDigit(w[2])
  {
    100 * DigitValue(w[0]) + 10 * DigitValue(w[1]) + DigitValue(w[2])
  }

  /**
   The window is the octet typed so far, cut to its last two characters and
   padded to two with '0', followed by the incoming characters.
   */
  lemma WindowIsPaddedOctet(buffer: seq<char>, pos: int, chrs: string)
    requires 0 <= pos <= |buffer|
    ensures Window(buffer, pos, chrs) == LastTwoPadded(OctetSoFar(buffer[..pos])) + chrs
  {
    var prefix := buffer[..pos];
    if pos >= 1 && buffer[pos - 1] != '.' {
      assert prefix[..pos - 1] == buffer[..pos - 1];
      if pos >= 2 && buffer[pos - 2] != '.' {
        assert buffer[..pos - 1][..pos - 2] == buffer[..pos - 2];
        LastTwoOfOctet(OctetSoFar(buffer[..pos - 2]), buffer[pos - 2], buffer[pos - 1]);
      } else {
        assert OctetSoFar(buffer[..pos - 1]) == [];
      }
    } else {
      assert OctetSoFar(prefix) == [];
    }
  }

  lemma LastTwoOfOctet(t: seq<char>, a: char, b: char)
    ensures LastTwoPadded(t + [a] + [b]) == [a, b]
  {
    var u := t + [a] + [b];
    assert u[|u| - 2..] == [a, b];
  }

  /** A three-digit window matches the pattern exactly when its value is at most 255. */
  lemma PatternIffAtMost255(w: string)
    ensures |w| == 3 && IsDigit(w[0]) && IsDigit(w[1]) && IsDigit(w[2]) ==>
      (PatternFound(w) <==> Value3(w) <= 255)
  {
    if |w| == 3 && IsDigit(w[0]) && IsDigit(w[1]) && IsDigit(w[2]) && Value3(w) <= 255 {
      assert MatchesAt(w, 0);
    }
  }

  /** The first digit of an octet, at the buffer start or after a '.', is always accepted. */
  lemma FirstDigitAccepted(buffer: seq<char>, pos: int, c: char)
    requires pos <= |buffer| && IsDigit(c)
    requires pos <= 0 || buffer[pos - 1] == '.'
    ensures IpValidator([c], buffer, pos)
  {
    assert MatchesAt(Window(buffer, pos, [c]), 0);
  }

  /** Typing 2, 5, 6: the window "256" is rejected. */
  lemma Typing256Rejected()
    ensures Window("25", 2, "6") == "256"
    ensures !IpValidator("6", "25", 2)
  {
    PatternIffAtMost255("256");
  }

  /** "1" then 9 gives the window "019", and 3 after a '.' gives "003": both accepted. */
  lemma ShortOctetsAccepted()
    ensures Window("1", 1, "9") == "019" && IpValidator("9", "1", 1)
    ensures Window(".", 1, "3") == "003" && IpValidator("3", ".", 1)
  {
    assert MatchesAt("019", 0);
    assert MatchesAt("003", 0);
  }

  /**
   The pattern is not anchored: with two incoming characters "99" after the
   octet digit 9 the window is "0999", which is accepted on its slice "099".
   */
  lemma UnanchoredLongWindow()
    ensures Window(".9", 2, "99") == "0999"
    ensures IpValidator("99", ".9", 2)
  {
    assert MatchesAt("0999", 0);
  }
}
