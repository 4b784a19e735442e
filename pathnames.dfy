/**
 * The two pieces of library behaviour the name sequencer builds on:
 * pathlib's split of a bare file name into stem and suffix, and the decimal
 * text of a positive index as an f-string prints it.
 */
module PathNames {

  /** Python's `str.rfind(c)`: the position of the last `c` in `s`, or -1. */
  function LastIndexOf(s: string, c: char): (i: int)
    ensures -1 <= i < |s|
  {
    if |s| == 0 then -1
    else if s[|s| - 1] == c then |s| - 1
    else LastIndexOf(s[..|s| - 1], c)
  }

  /** `LastIndexOf` finds a `c` when there is one, and none comes after it. */
  lemma {:induction false} LastIndexOfIsLast(s: string, c: char)
    ensures LastIndexOf(s, c) >= 0 ==> s[LastIndexOf(s, c)] == c
    ensures LastIndexOf(s, c) == -1 ==> c !in s
    ensures forall j :: LastIndexOf(s, c) < j < |s| ==> s[j] != c
  {
    if |s| > 0 && s[|s| - 1] != c {
      var t := s[..|s| - 1];
      LastIndexOfIsLast(t, c);
      forall j | LastIndexOf(s, c) < j < |t| ensures s[j] != c {
        assert s[j] == t[j];
      }
      if LastIndexOf(t, c) == -1 {
        assert s == t + [s[|s| - 1]];
      }
    }
  }

  /** Any position holding the last `c` is the one `LastIndexOf` finds. */
  lemma LastIndexOfUnique(s: string, c: char, i: int)
    requires 0 <= i < |s| && s[i] == c
    requires forall j :: i < j < |s| ==> s[j] != c
    ensures LastIndexOf(s, c) == i
  {
    LastIndexOfIsLast(s, c);
  }

  /** pathlib's test for a suffix: the last dot is neither the first nor the last character. */
  predicate HasSuffix(name: string)
  {
    var i := LastIndexOf(name, '.');
    0 < i < |name| - 1
  }

  /** `PurePath.suffix` of a bare file name. */
  function Suffix(name: string): string
  {
    if HasSuffix(name) then name[LastIndexOf(name, '.')..] else ""
  }

  /** `PurePath.stem` of a bare file name. */
  function Stem(name: string): string
  {
    if HasSuffix(name) then name[..LastIndexOf(name, '.')] else name
  }

  /** Stem and suffix put back together give the name again. */
  lemma StemSuffixSplit(name: string)
    ensures Stem(name) + Suffix(name) == name
  {
    if HasSuffix(name) {
      var i := LastIndexOf(name, '.');
      assert name[..i] + name[i..] == name;
    }
  }

  /**
   * The shape of the split: a non-empty suffix is a dot followed by at least
   * one character and no further dot, and its stem is not empty.
   */
  lemma SuffixShape(name: string)
    ensures Suffix(name) == "" || (|Suffix(name)| >= 2 && Suffix(name)[0] == '.' && '.' !in Suffix(name)[1..])
    ensures Suffix(name) != "" ==> |Stem(name)| >= 1
    ensures Suffix(name) == "" ==> Stem(name) == name
  {
    LastIndexOfIsLast(name, '.');
    if HasSuffix(name) {
      var i := LastIndexOf(name, '.');
      var x := name[i..];
      forall j | 0 <= j < |x[1..]| ensures x[1..][j] != '.' {
        assert x[1..][j] == name[i + 1 + j];
      }
    }
  }

  /** Worked splits: `a.tar.gz`, `.bashrc`, `abc`, `abc.`. */
  lemma SplitExamples()
    ensures Stem("a.tar.gz") == "a.tar" && Suffix("a.tar.gz") == ".gz"
    ensures Stem(".bashrc") == ".bashrc" && Suffix(".bashrc") == ""
    ensures Stem("abc") == "abc" && Suffix("abc") == ""
    ensures Stem("abc.") == "abc." && Suffix("abc.") == ""
  {
    LastIndexOfUnique("a.tar.gz", '.', 5);
    LastIndexOfUnique(".bashrc", '.', 0);
    LastIndexOfUnique("abc.", '.', 3);
    assert LastIndexOf("abc", '.') == -1;
  }

  /** The character of a decimal digit 0..9. */
  function DigitChar(d: nat): char
    requires d < 10
  {
    "0123456789"[d]
  }

  predicate IsDigit(c: char)
  {
    '0' <= c <= '9'
  }

  /** The numeric value of a digit character. */
  function DigitValue(c: char): nat
    requires IsDigit(c)
  {
    (c as int - '0' as int) as nat
  }

  /** Decimal text of `n` without leading zeros, as `f"{n}"` prints it. */
  function Decimal(n: nat): (s: string)
    ensures |s| >= 1
  {
    if n < 10 then [DigitChar(n)] else Decimal(n / 10) + [DigitChar(n % 10)]
  }

  predicate AllDigits(s: string)
  {
    forall i :: 0 <= i < |s| ==> IsDigit(s[i])
  }

  /** The decimal text consists of digits only. */
  lemma {:induction false} DecimalDigits(n: nat)
    ensures AllDigits(Decimal(n))
  {
    if n >= 10 {
      DecimalDigits(n / 10);
      var s := Decimal(n);
      forall i | 0 <= i < |s| ensures IsDigit(s[i]) {
        if i < |s| - 1 {
          assert s[i] == Decimal(n / 10)[i];
        }
      }
    }
  }

  /** The value a string of digits denotes, read left to right. */
  function ValueOf(s: string): nat
    requires AllDigits(s)
  {
    if |s| == 0 then 0 else 10 * ValueOf(s[..|s| - 1]) + DigitValue(s[|s| - 1])
  }

  /** Reading the decimal text back gives the number. */
  lemma {:induction false} DecimalRoundTrip(n: nat)
    ensures AllDigits(Decimal(n)) && ValueOf(Decimal(n)) == n
  {
    DecimalDigits(n);
    var s := Decimal(n);
    if n < 10 {
      assert s[..0] == [];
    } else {
      DecimalRoundTrip(n / 10);
      assert s[..|s| - 1] == Decimal(n / 10);
    }
  }

  /** Different numbers have different decimal texts. */
  lemma DecimalInjective(a: nat, b: nat)
    requires Decimal(a) == Decimal(b)
    ensures a == b
  {
    DecimalRoundTrip(a);
    DecimalRoundTrip(b);
  }
}
