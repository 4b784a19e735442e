/**
 * The collision-avoiding name sequencer `filenames_with_index`: the
 * candidate at index 0 is the name itself, the candidate at index k >= 1
 * carries `(k)` between stem and suffix, and an optional `max_index` stops
 * the sequence after that index.
 */
module Sequencer {
  import opened PathNames

  /** The text inserted before the suffix: nothing for 0, `(k)` otherwise. */
  function Tag(k: nat): string
  {
    if k == 0 then "" else "(" + Decimal(k) + ")"
  }

  /** The candidate for index `k`, built from an already split name. */
  function Candidate(stem: string, suffix: string, k: nat): string
  {
    stem + Tag(k) + suffix
  }

  /** The candidate for index `k` of a bare file name. */
  function NameAt(name: string, k: nat): string
  {
    Candidate(Stem(name), Suffix(name), k)
  }

  /** Index 0 gives the unmodified name. */
  lemma NameAtZero(name: string)
    ensures NameAt(name, 0) == name
  {
    StemSuffixSplit(name);
  }

  /** Index k >= 1 inserts `(k)` between stem and suffix, and nothing else. */
  lemma NameAtIndexed(name: string, k: nat)
    requires k >= 1
    ensures NameAt(name, k) == Stem(name) + "(" + Decimal(k) + ")" + Suffix(name)
    ensures Suffix(name) == "" ==> NameAt(name, k) == name + "(" + Decimal(k) + ")"
  {
    TagIndexed(Stem(name), Suffix(name), k);
    if Suffix(name) == "" {
      assert Stem(name) == name;
    }
  }

  lemma TagIndexed(stem: string, suffix: string, k: nat)
    requires k >= 1
    ensures Candidate(stem, suffix, k) == stem + "(" + Decimal(k) + ")" + suffix
    ensures suffix == "" ==> Candidate(stem, suffix, k) == stem + "(" + Decimal(k) + ")"
  {
  }

  /** The inserted tag holds only digits and parentheses. */
  lemma TagChars(k: nat)
    ensures forall i :: 0 <= i < |Tag(k)| ==> Tag(k)[i] == '(' || Tag(k)[i] == ')' || IsDigit(Tag(k)[i])
  {
    if k > 0 {
      var d := Decimal(k);
      DecimalDigits(k);
      forall i | 0 <= i < |Tag(k)|
        ensures Tag(k)[i] == '(' || Tag(k)[i] == ')' || IsDigit(Tag(k)[i])
      {
        if 1 <= i <= |d| {
          assert Tag(k)[i] == d[i - 1];
        }
      }
    }
  }

  /** Different indices have different tags. */
  lemma TagInjective(j: nat, k: nat)
    requires Tag(j) == Tag(k)
    ensures j == k
  {
    if j != 0 && k != 0 {
      var t := Tag(j);
      assert t[1..|t| - 1] == Decimal(j);
      assert Tag(k)[1..|t| - 1] == Decimal(k);
      DecimalInjective(j, k);
    }
  }

  /** Candidates for different indices are different strings. */
  lemma CandidateInjective(stem: string, suffix: string, j: nat, k: nat)
    requires Candidate(stem, suffix, j) == Candidate(stem, suffix, k)
    ensures j == k
  {
    var c := Candidate(stem, suffix, j);
    var tj, tk := Tag(j), Tag(k);
    assert |tj| == |tk|;
    assert c[|stem|..|stem| + |tj|] == tj by {
      assert c == stem + tj + suffix;
    }
    assert c[|stem|..|stem| + |tk|] == tk by {
      assert c == stem + tk + suffix;
    }
    TagInjective(j, k);
  }

  /** The same holds for the candidates of one name. */
  lemma NameAtInjective(name: string, j: nat, k: nat)
    requires NameAt(name, j) == NameAt(name, k)
    ensures j == k
  {
    CandidateInjective(Stem(name), Suffix(name), j, k);
  }

  /**
   * The index goes before the extension: when the name has a suffix, every
   * candidate has that same suffix and its stem is the old stem with the tag.
   */
  lemma {:induction false} CandidateKeepsSuffix(name: string, k: nat)
    requires Suffix(name) != ""
    ensures Suffix(NameAt(name, k)) == Suffix(name)
    ensures Stem(NameAt(name, k)) == Stem(name) + Tag(k)
  {
    SuffixShape(name);
    TagChars(k);
    var stem, suf, tag := Stem(name), Suffix(name), Tag(k);
    var c := NameAt(name, k);
    var p := |stem| + |tag|;
    assert c == (stem + tag) + suf;
    assert c[p] == '.';
    forall j | p < j < |c| ensures c[j] != '.' {
      assert c[j] == suf[1..][j - p - 1];
    }
    LastIndexOfUnique(c, '.', p);
    assert c[p..] == suf;
    assert c[..p] == stem + tag;
  }

  /** A candidate of a name without `/` has no `/` either: it stays a bare name. */
  lemma CandidateIsBare(name: string, k: nat)
    requires '/' !in name
    ensures '/' !in NameAt(name, k)
  {
    StemSuffixSplit(name);
    TagChars(k);
    var stem, suf, tag := Stem(name), Suffix(name), Tag(k);
    var c := NameAt(name, k);
    forall i | 0 <= i < |c| ensures c[i] != '/' {
      if i < |stem| {
        assert c[i] == name[i];
      } else if i < |stem| + |tag| {
        assert c[i] == tag[i - |stem|];
      } else {
        assert c[i] == name[i - |tag|];
      }
    }
  }

  /** The optional `max_index` argument. */
  datatype Bound = Unbounded | MaxIndex(max: int)

  /** The generator's stop test after yielding `index`. */
  predicate StopsAt(bound: Bound, index: nat)
  {
    bound.MaxIndex? && index == bound.max
  }

  /**
   * The counter values at which the generator yields when `n` more values
   * are pulled from it while its counter stands at `index` (fewer if it
   * returns first).
   */
  function Pull(bound: Bound, index: nat, n: nat): seq<nat>
    decreases n
  {
    if n == 0 then []
    else [index] + (if StopsAt(bound, index) then [] else Pull(bound, index + 1, n - 1))
  }

  /** The first `n` values of `filenames_with_index(name, max_index)`: one candidate per counter value. */
  function Generated(name: string, bound: Bound, n: nat): seq<string>
  {
    var ks := Pull(bound, 0, n);
    seq(|ks|, i requires 0 <= i < |ks| => NameAt(name, ks[i]))
  }

  /** When the generator is finite: its counter has not yet passed the bound. */
  predicate Finite(bound: Bound, index: nat)
  {
    bound.MaxIndex? && index <= bound.max
  }

  /** The counter advances by one per pulled value. */
  lemma {:induction false} PullAt(bound: Bound, index: nat, n: nat)
    ensures |Pull(bound, index, n)| <= n
    ensures forall i :: 0 <= i < |Pull(bound, index, n)| ==> Pull(bound, index, n)[i] == index + i
    decreases n
  {
    if n > 0 && !StopsAt(bound, index) {
      PullAt(bound, index + 1, n - 1);
    }
  }

  /** How many values are pulled: all `n` unless the bound is reached first. */
  lemma {:induction false} PullLength(bound: Bound, index: nat, n: nat)
    ensures Finite(bound, index) ==> |Pull(bound, index, n)| == Min(n, bound.max - index + 1)
    ensures !Finite(bound, index) ==> |Pull(bound, index, n)| == n
    decreases n
  {
    if n > 0 && !StopsAt(bound, index) {
      PullLength(bound, index + 1, n - 1);
    }
  }

  function Min(a: int, b: int): int
  {
    if a <= b then a else b
  }

  /**
   * The generator yields the candidates for 0, 1, 2, ... in this order; with
   * `max_index = m >= 0` it yields exactly m + 1 of them, the last one for
   * index m; without a bound (or with a negative one, which its test never
   * meets) it never stops.
   */
  lemma GeneratedSpec(name: string, bound: Bound, n: nat)
    ensures forall i :: 0 <= i < |Generated(name, bound, n)| ==> Generated(name, bound, n)[i] == NameAt(name, i)
    ensures bound.MaxIndex? && bound.max >= 0 ==> |Generated(name, bound, n)| == Min(n, bound.max + 1)
    ensures bound.MaxIndex? && bound.max >= 0 && n > bound.max ==> Generated(name, bound, n)[bound.max] == NameAt(name, bound.max)
    ensures bound.Unbounded? || bound.max < 0 ==> |Generated(name, bound, n)| == n
    ensures n > 0 ==> Generated(name, bound, n)[0] == name
  {
    PullAt(bound, 0, n);
    PullLength(bound, 0, n);
    NameAtZero(name);
  }

  /** No value is yielded twice. */
  lemma GeneratedDistinct(name: string, bound: Bound, n: nat, i: nat, j: nat)
    requires i < j < |Generated(name, bound, n)|
    ensures Generated(name, bound, n)[i] != Generated(name, bound, n)[j]
  {
    GeneratedSpec(name, bound, n);
    if Generated(name, bound, n)[i] == Generated(name, bound, n)[j] {
      NameAtInjective(name, i, j);
    }
  }

  lemma DoctestSplit()
    ensures Stem("abc.txt") == "abc" && Suffix("abc.txt") == ".txt"
  {
    LastIndexOfUnique("abc.txt", '.', 3);
  }

  /** The indexed candidates of the doctest's name with a suffix. */
  lemma DoctestNamesTxt()
    ensures NameAt("abc.txt", 1) == "abc(1).txt" && NameAt("abc.txt", 2) == "abc(2).txt"
  {
    DoctestSplit();
    assert Decimal(1) == "1" && Decimal(2) == "2";
    NameAtIndexed("abc.txt", 1);
    NameAtIndexed("abc.txt", 2);
  }

  /** The indexed candidates of the doctest's name without a suffix. */
  lemma DoctestNamesBare()
    ensures NameAt("abc", 1) == "abc(1)" && NameAt("abc", 2) == "abc(2)"
  {
    assert LastIndexOf("abc", '.') == -1;
    assert Stem("abc") == "abc" && Suffix("abc") == "";
    assert Decimal(1) == "1" && Decimal(2) == "2";
    NameAtIndexed("abc", 1);
    NameAtIndexed("abc", 2);
  }

  /** The doctest: `abc.txt`, `abc(1).txt`, `abc(2).txt`. */
  lemma DoctestUnbounded()
    ensures Generated("abc.txt", Unbounded, 3) == ["abc.txt", "abc(1).txt", "abc(2).txt"]
  {
    DoctestNamesTxt();
    GeneratedSpec("abc.txt", Unbounded, 3);
  }

  /** With `max_index = 2` the generator stops after `abc(2)`, however many values are asked for. */
  lemma DoctestBounded()
    ensures Generated("abc", MaxIndex(2), 5) == ["abc", "abc(1)", "abc(2)"]
  {
    DoctestNamesBare();
    GeneratedSpec("abc", MaxIndex(2), 5);
  }
}
