/**
 Names given to the ensemble's populations (neorl/hybrid/aeo.py, the loop building the log's
 population coordinates). The first population of a family is named after the family; each
 later one gets the family name followed by the smallest free counter from 2 up, written in
 decimal and zero-padded to three digits (`str(i).zfill(3)`).
 */
module Naming {
  import opened Algorithms
  import opened Lists

  predicate IsDigit(c: char)
  {
    '0' <= c <= '9'
  }

  function DigitChar(d: nat): (c: char)
    requires d < 10
    ensures IsDigit(c)
  {
    "0123456789"[d]
  }

  function DigitValue(c: char): nat
    requires IsDigit(c)
  {
    (c as int) - ('0' as int)
  }

  /** Python's `str(i)` for a non-negative integer. */
  function Digits(i: nat): (s: string)
    ensures |s| >= 1
    ensures forall k :: 0 <= k < |s| ==> IsDigit(s[k])
  {
    if i < 10 then [DigitChar(i)] else Digits(i / 10) + [DigitChar(i % 10)]
  }

  /** Value of a string of decimal digits; leading zeros contribute nothing. */
  function ParseDigits(s: string): nat
    requires forall k :: 0 <= k < |s| ==> IsDigit(s[k])
  {
    if |s| == 0 then 0 else ParseDigits(s[..|s| - 1]) * 10 + DigitValue(s[|s| - 1])
  }

  /** `str.zfill(3)` on a digit string: left-pad with '0' to width three. */
  function ZFill3(s: string): (r: string)
    ensures |s| >= 3 ==> r == s
    ensures |s| < 3 ==> |r| == 3
    ensures exists z :: r == z + s && forall k :: 0 <= k < |z| ==> z[k] == '0'
  {
    var z := seq(if |s| >= 3 then 0 else 3 - |s|, _ => '0');
    assert forall k :: 0 <= k < |z| ==> z[k] == '0';
    z + s
  }

  /** The counter appended to a repeated family name. */
  function Suffix(i: nat): (r: string)
    ensures |r| >= 3 && |r| >= |Digits(i)|
    ensures forall k :: 0 <= k < |r| ==> IsDigit(r[k])
  {
    ZFill3(Digits(i))
  }

  lemma {:induction false} ParseDigitsOfDigits(i: nat)
    ensures ParseDigits(Digits(i)) == i
  {
    if i >= 10 {
      ParseDigitsOfDigits(i / 10);
      var s := Digits(i);
      assert s[..|s| - 1] == Digits(i / 10);
    }
  }

  lemma {:induction false} LeadingZeros(z: string, s: string)
    requires forall k :: 0 <= k < |z| ==> z[k] == '0'
    requires forall k :: 0 <= k < |s| ==> IsDigit(s[k])
    ensures ParseDigits(z + s) == ParseDigits(s)
    decreases |s| + |z|
  {
    if |s| == 0 {
      assert z + s == z;
      if |z| > 0 {
        LeadingZeros(z[..|z| - 1], s);
        assert z[..|z| - 1] + s == z[..|z| - 1];
      }
    } else {
      var init := s[..|s| - 1];
      assert (z + s)[..|z + s| - 1] == z + init;
      LeadingZeros(z, init);
    }
  }

  /** Zero-padding does not change the counter: the suffix reads back as the number written. */
  lemma SuffixRoundTrip(i: nat)
    ensures ParseDigits(Suffix(i)) == i
  {
    var z :| Suffix(i) == z + Digits(i) && forall k :: 0 <= k < |z| ==> z[k] == '0';
    LeadingZeros(z, Digits(i));
    ParseDigitsOfDigits(i);
  }

  /** Different counters give different suffixes. */
  lemma SuffixInjective(i: nat, j: nat)
    requires Suffix(i) == Suffix(j)
    ensures i == j
  {
    SuffixRoundTrip(i);
    SuffixRoundTrip(j);
  }

  function Pow10(k: nat): (r: nat)
    ensures r >= 1
  {
    if k == 0 then 1 else 10 * Pow10(k - 1)
  }

  /** A number at least 10^k has more than k decimal digits. */
  lemma {:induction false} DigitsLength(i: nat, k: nat)
    requires i >= Pow10(k)
    ensures |Digits(i)| > k
  {
    if k > 0 {
      assert i / 10 >= Pow10(k - 1);
      DigitsLength(i / 10, k - 1);
    }
  }

  /** Length of the longest name taken so far. */
  function MaxLen(taken: seq<string>): (m: nat)
    ensures forall k :: 0 <= k < |taken| ==> |taken[k]| <= m
  {
    if |taken| == 0 then 0
    else
      var rest := MaxLen(taken[1..]);
      assert forall k :: 1 <= k < |taken| ==> taken[k] == taken[1..][k - 1];
      if |taken[0]| >= rest then |taken[0]| else rest
  }

  /**
   The `while` loop: the first counter from `i` up whose suffixed name is not yet taken. It
   stops because a counter of `10^MaxLen(taken)` or more makes a name longer than any taken one.
   */
  function FreeSuffix(base: string, taken: seq<string>, i: nat): (k: nat)
    ensures i <= k
    ensures base + Suffix(k) !in taken
    ensures forall j :: i <= j < k ==> base + Suffix(j) in taken
    decreases Pow10(MaxLen(taken)) - i
  {
    if base + Suffix(i) in taken then
      assert i < Pow10(MaxLen(taken)) by {
        if i >= Pow10(MaxLen(taken)) {
          DigitsLength(i, MaxLen(taken));
        }
      }
      FreeSuffix(base, taken, i + 1)
    else i
  }

  /** The name given to the next population of a family named `base`. */
  function NextName(base: string, taken: seq<string>): (r: string)
    ensures r !in taken
    ensures base !in taken ==> r == base
    ensures base in taken ==> exists k :: k >= 2 && r == base + Suffix(k)
  {
    if base !in taken then base else base + Suffix(FreeSuffix(base, taken, 2))
  }

  /** Names of populations driven by the families `fams`, in order. */
  function PopNames(fams: seq<Family>): (r: seq<string>)
    ensures |r| == |fams|
    ensures Distinct(r)
    ensures forall k :: 0 <= k < |fams| ==> r[k] == NextName(Name(fams[k]), r[..k])
  {
    if |fams| == 0 then []
    else
      var prev := PopNames(fams[..|fams| - 1]);
      var name := NextName(Name(fams[|fams| - 1]), prev);
      PopNamesStep(fams, prev, name);
      prev + [name]
  }

  /** The last population's name extends the names of the ones before it. */
  lemma PopNamesStep(fams: seq<Family>, prev: seq<string>, name: string)
    requires |fams| > 0 && |prev| == |fams| - 1 && Distinct(prev)
    requires forall k :: 0 <= k < |prev| ==> prev[k] == NextName(Name(fams[..|prev|][k]), prev[..k])
    requires name == NextName(Name(fams[|prev|]), prev)
    ensures Distinct(prev + [name])
    ensures forall k :: 0 <= k < |fams| ==> (prev + [name])[k] == NextName(Name(fams[k]), (prev + [name])[..k])
  {
    var r := prev + [name];
    AppendFreshDistinct(prev, name);
    forall k | 0 <= k < |fams|
      ensures r[k] == NextName(Name(fams[k]), r[..k])
    {
      if k < |prev| {
        assert fams[..|prev|][k] == fams[k];
        assert r[..k] == prev[..k];
      } else {
        assert r[..k] == prev;
      }
    }
  }

  /** Appending a name not yet taken keeps the names distinct. */
  lemma AppendFreshDistinct(prev: seq<string>, name: string)
    requires Distinct(prev) && name !in prev
    ensures Distinct(prev + [name])
  {
    var r := prev + [name];
    forall i, j | 0 <= i < j < |r|
      ensures r[i] != r[j]
    {
      if j == |prev| {
        assert r[i] == prev[i];
      }
    }
  }

  /** Every population name is its family's name, possibly followed by a counter. */
  ghost predicate NamedAfter(name: string, f: Family)
  {
    name == Name(f) || exists k: nat :: name == Name(f) + Suffix(k)
  }

  lemma {:induction false} NamesNamedAfter(fams: seq<Family>)
    ensures forall k :: 0 <= k < |fams| ==> NamedAfter(PopNames(fams)[k], fams[k])
  {
    forall k | 0 <= k < |fams|
      ensures NamedAfter(PopNames(fams)[k], fams[k])
    {
      var r := PopNames(fams);
      var base := Name(fams[k]);
      if base in r[..k] {
        var c := FreeSuffix(base, r[..k], 2);
        assert r[k] == base + Suffix(c);
      }
    }
  }

  /** A bare family name is never the suffixed name of any family: suffixes start with a digit. */
  lemma BareIsNotSuffixed(f: Family, h: Family, k: nat)
    ensures Name(f) != Name(h) + Suffix(k)
  {
    NamesDistinctLetters(f, h);
    NamesDistinctLetters(h, f);
  }

  /** A bare name among earlier names was given to an earlier population of the same family. */
  lemma BareNameOnlyFromSameFamily(fams: seq<Family>, k: nat, j: nat)
    requires j < k < |fams|
    requires PopNames(fams)[j] == Name(fams[k])
    ensures fams[j] == fams[k]
  {
    NamesNamedAfter(fams);
    var f := fams[j];
    if PopNames(fams)[j] != Name(f) {
      var c: nat :| PopNames(fams)[j] == Name(f) + Suffix(c);
      BareIsNotSuffixed(fams[k], f, c);
    }
    NamesDistinctLetters(fams[k], f);
  }

  /** Before the first population of a family, its bare name is still free. */
  lemma BareFreeBeforeFirstUse(fams: seq<Family>, k: nat)
    requires k < |fams|
    requires forall j :: 0 <= j < k ==> fams[j] != fams[k]
    ensures Name(fams[k]) !in PopNames(fams)[..k]
  {
    var r := PopNames(fams);
    if j :| 0 <= j < k && r[j] == Name(fams[k]) {
      BareNameOnlyFromSameFamily(fams, k, j);
    }
  }

  /** The first population of a family gets the bare family name. */
  lemma FirstUseIsBare(fams: seq<Family>, k: nat)
    requires k < |fams|
    requires forall j :: 0 <= j < k ==> fams[j] != fams[k]
    ensures PopNames(fams)[k] == Name(fams[k])
  {
    var r := PopNames(fams);
    BareFreeBeforeFirstUse(fams, k);
    assert r[k] == NextName(Name(fams[k]), r[..k]);
  }

  /** A later population of a family gets the smallest counter from 2 up not yet in use. */
  lemma LaterUseIsSuffixed(fams: seq<Family>, k: nat, j: nat)
    requires j < k < |fams| && fams[j] == fams[k]
    ensures var r := PopNames(fams);
      exists c :: c >= 2 && r[k] == Name(fams[k]) + Suffix(c)
        && Name(fams[k]) + Suffix(c) !in r[..k]
        && forall c' :: 2 <= c' < c ==> Name(fams[k]) + Suffix(c') in r[..k]
  {
    var r := PopNames(fams);
    var first := FirstOccurrence(fams, k, j);
    FirstUseIsBare(fams, first);
    assert r[..k][first] == r[first];
    var c := FreeSuffix(Name(fams[k]), r[..k], 2);
    assert r[k] == Name(fams[k]) + Suffix(c);
  }

  /** The earliest position at or before `j` holding the same family as position `k`. */
  function FirstOccurrence(fams: seq<Family>, k: nat, j: nat): (m: nat)
    requires j < k < |fams| && fams[j] == fams[k]
    ensures m <= j && fams[m] == fams[k]
    ensures forall i :: 0 <= i < m ==> fams[i] != fams[k]
  {
    if exists i :: 0 <= i < j && fams[i] == fams[k] then
      var i :| 0 <= i < j && fams[i] == fams[k];
      FirstOccurrence(fams, k, i)
    else j
  }
}
