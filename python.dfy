/**
 * The few Python built-ins the board code relies on, written out with the
 * semantics CPython gives them: `str.strip()`, `int()` applied to a single
 * character, `sum()` over a list of ints, and list indexing with negative
 * indices.
 */
module Python {
  import opened Results

  /** `c.isspace()`: the characters `str.strip()` removes when called with no argument. */
  predicate IsSpace(c: char) {
    || ('\t' <= c <= '\r')              // tab, line feed, vertical tab, form feed, carriage return
    || ('\U{1C}' <= c <= '\U{1F}')      // file, group, record and unit separators
    || c == ' '
    || c == '\U{85}' || c == '\U{A0}' || c == '\U{1680}'
    || ('\U{2000}' <= c <= '\U{200A}')
    || c == '\U{2028}' || c == '\U{2029}' || c == '\U{202F}' || c == '\U{205F}' || c == '\U{3000}'
  }

  /** The leading-whitespace half of `str.strip()`. */
  function StripLeading(s: string): (r: string)
    ensures |r| <= |s|
  {
    if s != [] && IsSpace(s[0]) then StripLeading(s[1..]) else s
  }

  /** The trailing-whitespace half of `str.strip()`. */
  function StripTrailing(s: string): (r: string)
    ensures |r| <= |s|
  {
    if s != [] && IsSpace(s[|s| - 1]) then StripTrailing(s[..|s| - 1]) else s
  }

  /** `s.strip()` */
  function Strip(s: string): (r: string)
    ensures |r| <= |s|
  {
    StripTrailing(StripLeading(s))
  }

  /** StripLeading drops a run of whitespace and keeps the rest, which starts with a non-space. */
  lemma {:induction false} StripLeadingDropsSpaces(s: string)
    ensures var r := StripLeading(s);
      && r == s[|s| - |r|..]
      && (forall i :: 0 <= i < |s| - |r| ==> IsSpace(s[i]))
      && (r != [] ==> !IsSpace(r[0]))
  {
    if s != [] && IsSpace(s[0]) {
      StripLeadingDropsSpaces(s[1..]);
      assert forall i :: 1 <= i < |s| ==> s[i] == s[1..][i - 1];
    }
  }

  /** StripTrailing drops a run of whitespace and keeps the rest, which ends with a non-space. */
  lemma {:induction false} StripTrailingDropsSpaces(s: string)
    ensures var r := StripTrailing(s);
      && r == s[..|r|]
      && (forall i :: |r| <= i < |s| ==> IsSpace(s[i]))
      && (r != [] ==> !IsSpace(r[|r| - 1]))
  {
    if s != [] && IsSpace(s[|s| - 1]) {
      StripTrailingDropsSpaces(s[..|s| - 1]);
    }
  }

  /** `s.strip()` neither starts nor ends with whitespace. */
  lemma StripTrimsBothEnds(s: string)
    ensures Strip(s) != [] ==> !IsSpace(Strip(s)[0]) && !IsSpace(Strip(s)[|Strip(s)| - 1])
  {
    var t := StripLeading(s);
    StripLeadingDropsSpaces(s);
    StripTrailingDropsSpaces(t);
    if Strip(s) != [] {
      assert Strip(s)[0] == t[0];
    }
  }

  /**
   * `s.strip()` keeps one contiguous slice of `s`, with no whitespace at either
   * end of it, and every character it drops is whitespace.
   */
  lemma StripIsSlice(s: string)
    ensures var a := |s| - |StripLeading(s)|;
      && a + |Strip(s)| <= |s|
      && Strip(s) == s[a..a + |Strip(s)|]
      && (forall i :: 0 <= i < a ==> IsSpace(s[i]))
      && (forall i :: a + |Strip(s)| <= i < |s| ==> IsSpace(s[i]))
      && (Strip(s) != [] ==> !IsSpace(Strip(s)[0]) && !IsSpace(Strip(s)[|Strip(s)| - 1]))
  {
    var t := StripLeading(s);
    var a := |s| - |t|;
    var r := StripTrailing(t);
    StripLeadingDropsSpaces(s);
    StripTrailingDropsSpaces(t);
    assert t == s[a..];
    assert r == s[a..a + |r|];
    forall i | a + |r| <= i < |s|
      ensures IsSpace(s[i])
    {
      assert s[i] == t[i - a];
    }
    StripTrimsBothEnds(s);
  }

  /** A string with no whitespace at either end is left as it is. */
  lemma StripKeepsTrimmed(s: string)
    requires s != [] ==> !IsSpace(s[0]) && !IsSpace(s[|s| - 1])
    ensures Strip(s) == s
  {
  }

  /** Stripping twice is stripping once. */
  lemma StripIdempotent(s: string)
    ensures Strip(Strip(s)) == Strip(s)
  {
    StripIsSlice(s);
    StripKeepsTrimmed(Strip(s));
  }

  predicate IsDigit(c: char) {
    '0' <= c <= '9'
  }

  /** A line of digits followed by its line break strips back to the digits. */
  lemma StripDigitLine(t: string)
    requires forall j :: 0 <= j < |t| ==> IsDigit(t[j])
    ensures Strip(t + "\n") == t
  {
    var line := t + "\n";
    if t == [] {
      assert line[1..] == [];
      assert StripLeading(line) == [];
    } else {
      assert line[0] == t[0];
      assert StripLeading(line) == line;
      assert line[..|line| - 1] == t;
      assert StripTrailing(line) == StripTrailing(t);
    }
  }

  /**
   * `int(x)` for a one-character string `x`: the value of a decimal digit,
   * None where Python raises ValueError.
   */
  function IntOfChar(c: char): (r: Option<int>)
    ensures r.Some? <==> IsDigit(c)
    ensures r.Some? ==> 0 <= r.value <= 9 && c as int == '0' as int + r.value
  {
    if IsDigit(c) then Some(c as int - '0' as int) else None
  }

  /** `sum(s)` */
  function Sum(s: seq<int>): (r: int)
  {
    if s == [] then 0 else s[0] + Sum(s[1..])
  }

  /** A list of zeros and ones sums to a count between 0 and its length. */
  lemma {:induction false} SumOfBits(s: seq<int>)
    requires forall k :: 0 <= k < |s| ==> s[k] == 0 || s[k] == 1
    ensures 0 <= Sum(s) <= |s|
  {
    if s != [] {
      SumOfBits(s[1..]);
    }
  }

  /** A list of zeros sums to zero. */
  lemma {:induction false} SumOfZeros(s: seq<int>)
    requires forall k :: 0 <= k < |s| ==> s[k] == 0
    ensures Sum(s) == 0
  {
    if s != [] {
      SumOfZeros(s[1..]);
    }
  }

  /** A prefix one longer is the prefix followed by the next element. */
  lemma TakeOneMore<T>(s: seq<T>, m: nat)
    requires m < |s|
    ensures s[..m + 1] == s[..m] + [s[m]]
  {
  }

  /** The sum of a list of eight, written out. */
  lemma SumOfEight(s: seq<int>)
    requires |s| == 8
    ensures Sum(s) == s[0] + s[1] + s[2] + s[3] + s[4] + s[5] + s[6] + s[7]
  {
    assert Sum(s[7..]) == s[7];
    assert Sum(s[6..]) == s[6] + Sum(s[7..]);
    assert Sum(s[5..]) == s[5] + Sum(s[6..]);
    assert Sum(s[4..]) == s[4] + Sum(s[5..]);
    assert Sum(s[3..]) == s[3] + Sum(s[4..]);
    assert Sum(s[2..]) == s[2] + Sum(s[3..]);
    assert Sum(s[1..]) == s[1] + Sum(s[2..]);
  }

  /**
   * The position that `xs[i]` reads on a list of length n: Python accepts
   * `-n <= i < n` and counts a negative index from the end.
   */
  function ResolveIndex(i: int, n: int): (k: int)
    requires -n <= i < n
    ensures 0 <= k < n
    ensures i >= 0 ==> k == i
  {
    if i >= 0 then i else i + n
  }

  /** A positive n times k, for k on either side of -1. */
  lemma MultipleBounds(n: int, k: int)
    requires n > 0
    ensures k >= 0 ==> n * k >= 0
    ensures k <= -2 ==> n * k <= -2 * n
  {
    if k <= -2 {
      assert n * k == n * (k + 2) - 2 * n;
    }
  }

  /** Negative indexing is reduction modulo the length. */
  lemma ResolveIndexIsModulo(i: int, n: int)
    requires -n <= i < n
    ensures ResolveIndex(i, n) == i % n
  {
    if i < 0 {
      var k := i / n;
      assert i == n * k + i % n && 0 <= i % n < n;
      MultipleBounds(n, k);
      assert k == -1;
      assert n * k == -n;
    }
  }
}
