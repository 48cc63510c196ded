/**
 * IBC revision numbers. A chain identifier of the form `<name>-<revision>`
 * carries its revision number as a decimal suffix; the height of a block on
 * that chain is the pair of that number and the raw block height.
 */
module Revision {
  import opened Wrappers

  /** An IBC height: revision number and the height within that revision. */
  datatype Height = Height(revisionNumber: nat, revisionHeight: nat)

  predicate IsDigit(c: char) { '0' <= c <= '9' }

  predicate AllDigits(s: string) { forall k :: 0 <= k < |s| ==> IsDigit(s[k]) }

  /** A digit run whose first digit is 1-9: what `[1-9][0-9]*` matches. */
  predicate IsRevisionDigits(d: string)
  {
    |d| > 0 && '1' <= d[0] <= '9' && AllDigits(d)
  }

  /**
   * The regular expression `-([1-9][0-9]*)$` matches `s` at position `i`:
   * a hyphen there, and from there to the end a digit run with no leading zero.
   */
  predicate SuffixMatchAt(s: string, i: nat)
    requires i < |s|
  {
    s[i] == '-' && IsRevisionDigits(s[i + 1..])
  }

  /** The value of a decimal digit run, most significant digit first. */
  function DecimalValue(d: string): (r: nat)
    requires AllDigits(d)
    decreases |d|
  {
    if |d| == 0 then 0
    else DecimalValue(d[..|d| - 1]) * 10 + (d[|d| - 1] as int - '0' as int)
  }

  /** The position of the last occurrence of `c` in `s`, if any. */
  function LastIndexOf(s: string, c: char): (r: Option<nat>)
    ensures r.Some? ==> r.value < |s| && s[r.value] == c
    ensures r.Some? ==> forall j :: r.value < j < |s| ==> s[j] != c
    ensures r.None? ==> forall j :: 0 <= j < |s| ==> s[j] != c
    decreases |s|
  {
    if |s| == 0 then None
    else if s[|s| - 1] == c then Some(|s| - 1)
    else LastIndexOf(s[..|s| - 1], c)
  }

  lemma {:induction false} LeadingDigitPositive(d: string)
    requires IsRevisionDigits(d)
    ensures DecimalValue(d) > 0
    decreases |d|
  {
    if |d| > 1 {
      var init := d[..|d| - 1];
      assert init[0] == d[0];
      assert AllDigits(init) by {
        forall k | 0 <= k < |init| ensures IsDigit(init[k]) { assert init[k] == d[k]; }
      }
      LeadingDigitPositive(init);
    }
  }

  /** A match of the suffix pattern can only start at the last hyphen. */
  lemma OnlyLastHyphenMatches(s: string)
    ensures forall i :: 0 <= i < |s| && SuffixMatchAt(s, i) ==> LastIndexOf(s, '-') == Some(i)
  {
  }

  /**
   * The revision number of a chain identifier: the value of a trailing
   * `-<digits>` whose first digit is 1-9, and 0 when there is no such suffix.
   * Only the last hyphen can start such a suffix, since digits hold no hyphen.
   */
  function ParseRevisionNumber(chainId: string): (r: nat)
    ensures forall i :: 0 <= i < |chainId| && SuffixMatchAt(chainId, i) ==>
      r == DecimalValue(chainId[i + 1..])
    ensures r > 0 <==> exists i :: 0 <= i < |chainId| && SuffixMatchAt(chainId, i)
  {
    match LastIndexOf(chainId, '-')
    case None => 0
    case Some(h) =>
      var d := chainId[h + 1..];
      OnlyLastHyphenMatches(chainId);
      if IsRevisionDigits(d) then
        LeadingDigitPositive(d);
        assert SuffixMatchAt(chainId, h);
        DecimalValue(d)
      else 0
  }

  /** The IBC height of raw block `height` on the chain named `chainId`. */
  function GetRevisionHeight(height: nat, chainId: string): (h: Height)
    ensures h.revisionHeight == height
    ensures h.revisionNumber == ParseRevisionNumber(chainId)
  {
    Height(ParseRevisionNumber(chainId), height)
  }

  /** The decimal digits of `n`, without leading zeros. */
  function DecimalString(n: nat): (d: string)
    decreases n
  {
    if n < 10 then [('0' as int + n) as char]
    else DecimalString(n / 10) + [('0' as int + n % 10) as char]
  }

  lemma {:induction false} DecimalStringValue(n: nat)
    ensures AllDigits(DecimalString(n))
    ensures |DecimalString(n)| > 0
    ensures n > 0 ==> '1' <= DecimalString(n)[0] <= '9'
    ensures DecimalValue(DecimalString(n)) == n
    decreases n
  {
    if n >= 10 {
      var d := DecimalString(n);
      var init := DecimalString(n / 10);
      DecimalStringValue(n / 10);
      assert d[..|d| - 1] == init;
      assert d[0] == init[0];
      assert AllDigits(d) by {
        forall k | 0 <= k < |d| ensures IsDigit(d[k]) {
          if k < |init| { assert d[k] == init[k]; }
        }
      }
    }
  }

  /**
   * Naming a chain `<name>-<n>` for a positive `n` gives it revision `n`,
   * whatever `name` is (it may contain hyphens and digits itself).
   */
  lemma RevisionSuffixRoundTrip(name: string, n: nat)
    requires n > 0
    ensures ParseRevisionNumber(name + "-" + DecimalString(n)) == n
  {
    var id := name + "-" + DecimalString(n);
    DecimalStringValue(n);
    assert id[|name| + 1..] == DecimalString(n);
    assert SuffixMatchAt(id, |name|);
  }

  /** Chain identifiers with a revision suffix. */
  lemma RevisionExamples()
    ensures ParseRevisionNumber("test-1") == 1
    ensures ParseRevisionNumber("foo-10") == 10
    ensures ParseRevisionNumber("foo-7") == 7
  {
    assert SuffixMatchAt("test-1", 4) && "test-1"[5..] == "1";
    assert SuffixMatchAt("foo-10", 3) && "foo-10"[4..] == "10";
    assert SuffixMatchAt("foo-7", 3) && "foo-7"[4..] == "7";
  }

  /** Chain identifiers without one: a zero or leading zero, no hyphen, or a non-digit after the last hyphen. */
  lemma NoRevisionExamples()
    ensures ParseRevisionNumber("foo-0") == 0
    ensures ParseRevisionNumber("foo-07") == 0
    ensures ParseRevisionNumber("foo") == 0
    ensures ParseRevisionNumber("a-1-x") == 0
  {
  }
}
