/** Small shared vocabulary: an optional value that works with `:-`, the ASCII
    character classes the log grammars rely on, and facts about text that
    occurs at a given offset of a line. */
module Common {

  /** One byte of a log file. */
  newtype byte = b: int | 0 <= b < 256

  datatype Option<+T> = None | Some(value: T) {
    predicate IsFailure() { None? }

    function PropagateFailure<U>(): Option<U>
      requires None?
    {
      None
    }

    function Extract(): T
      requires Some?
    {
      value
    }
  }

  /** ASCII reading of the regex class `\d` (and of the digits `str::parse` accepts). */
  predicate IsDigit(c: char) {
    '0' <= c <= '9'
  }

  /** ASCII reading of the regex class `\s`. */
  predicate IsSpace(c: char) {
    c == ' ' || c == '\t' || c == '\n' || c == '\U{000B}' || c == '\U{000C}' || c == '\r'
  }

  predicate AllDigits(s: string) {
    forall i :: 0 <= i < |s| ==> IsDigit(s[i])
  }

  /** A non-empty string of ASCII digits, the text `\d+` matches. */
  predicate IsNumeral(s: string) {
    |s| > 0 && AllDigits(s)
  }

  /** The shape `\d{2}/\d{2}/\d{4} - \d{2}:\d{2}:\d{2}` every grammar requires
      right after the leading "L ". */
  predicate IsTimestamp(t: string) {
    |t| == 21
    && IsDigit(t[0]) && IsDigit(t[1]) && t[2] == '/'
    && IsDigit(t[3]) && IsDigit(t[4]) && t[5] == '/'
    && IsDigit(t[6]) && IsDigit(t[7]) && IsDigit(t[8]) && IsDigit(t[9])
    && t[10] == ' ' && t[11] == '-' && t[12] == ' '
    && IsDigit(t[13]) && IsDigit(t[14]) && t[15] == ':'
    && IsDigit(t[16]) && IsDigit(t[17]) && t[18] == ':'
    && IsDigit(t[19]) && IsDigit(t[20])
  }

  /** `t` occurs in `s` starting at offset `i`. */
  predicate At(s: string, i: nat, t: string) {
    i + |t| <= |s| && forall m :: 0 <= m < |t| ==> s[i + m] == t[m]
  }

  lemma AtBound(s: string, i: nat, t: string)
    requires At(s, i, t)
    ensures i + |t| <= |s|
  {
  }

  lemma AtCat(s: string, i: nat, a: string, b: string)
    ensures At(s, i, a + b) <==> At(s, i, a) && At(s, i + |a|, b)
  {
    if At(s, i, a) && At(s, i + |a|, b) {
      forall m | 0 <= m < |a + b|
        ensures s[i + m] == (a + b)[m]
      {
        if m >= |a| {
          assert s[i + |a| + (m - |a|)] == b[m - |a|];
        }
      }
    }
    if At(s, i, a + b) {
      forall m | 0 <= m < |a|
        ensures s[i + m] == a[m]
      {
        assert s[i + m] == (a + b)[m];
      }
      forall m | 0 <= m < |b|
        ensures s[i + |a| + m] == b[m]
      {
        assert s[i + (|a| + m)] == (a + b)[|a| + m];
      }
    }
  }

  /** The first character of an occurrence. */
  lemma AtHead(s: string, i: nat, t: string)
    requires At(s, i, t) && |t| > 0
    ensures s[i] == t[0]
  {
    assert s[i + 0] == t[0];
  }

  lemma AtIndex(s: string, i: nat, t: string, m: int)
    requires At(s, i, t) && 0 <= m < |t|
    ensures s[i + m] == t[m]
  {
  }

  lemma AtSlice(s: string, i: nat, j: nat)
    requires i <= j <= |s|
    ensures At(s, i, s[i..j])
  {
  }

  lemma AtIsSlice(s: string, i: nat, t: string)
    requires At(s, i, t)
    ensures i + |t| <= |s| && s[i..i + |t|] == t
  {
  }

  lemma AtPrefix(s: string, t: string)
    ensures At(s, 0, t) <==> t <= s
  {
  }

  lemma AtWindow(s: string, d: nat, f: nat, i: nat, t: string)
    requires d <= i && f <= |s| && At(s, i, t) && i + |t| <= f
    ensures At(s[d..f], i - d, t)
  {
    forall m | 0 <= m < |t|
      ensures s[d..f][i - d + m] == t[m]
    {
      assert s[i + m] == t[m];
    }
  }

  lemma AtTrans(s: string, d: nat, t: string, u: string)
    requires At(s, d, t) && At(t, 0, u)
    ensures At(s, d, u)
  {
    forall m | 0 <= m < |u|
      ensures s[d + m] == u[m]
    {
      assert t[0 + m] == u[m];
    }
  }

  lemma AtJoin(s: string, i: nat, a: string, b: string)
    requires At(s, i, a) && At(s, i + |a|, b)
    ensures At(s, i, a + b)
  {
    AtCat(s, i, a, b);
  }
}
