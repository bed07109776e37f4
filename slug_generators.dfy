/** The two slug generators: `NullSlugGenerator`, which leaves the slug to the
    caller, and `SampleSlugGenerator`, which draws random lowercase
    alphanumeric strings until the repository reports one as unused. */
module SlugGenerators {
  import opened Wrappers
  import opened Entity

  const DefaultLength: nat := 8
  const MaxDuplicationChecks: nat := 10

  /** The alphabet of random slugs: the ten digits, then the 26 lowercase
      letters (`AlphabetSpelling` gives it as a literal). */
  function AllowedCharacters(): (r: string) {
    seq(36, AlphabetCharacter)
  }

  /** The `i`-th character of the alphabet. */
  function AlphabetCharacter(i: int): char
    requires 0 <= i < 36
  {
    if i < 10 then ('0' as int + i) as char else ('a' as int + i - 10) as char
  }

  lemma AlphabetSpelling()
    ensures AllowedCharacters() == "0123456789abcdefghijklmnopqrstuvwxyz"
  {
  }

  /** The reason a `SlugGeneratorException` is thrown: "Exceeded maximum
      allowed slug duplication checks! Try using longer slugs." */
  datatype SlugGeneratorError = DuplicationChecksExceeded

  /** `NullSlugGenerator::generate`: no slug, whatever it is given; it has no
      reads clause, so it cannot look at the attachment either. */
  function NullGenerate(attachment: Option<Attachment>): (r: Option<string>)
    ensures r == None
  {
    None
  }

  /** `max(ceil($length / strlen($allowedCharacters)), 1)`: the fewest copies
      of the alphabet, at least one, that together hold `length` characters. */
  function Repeats(length: nat): (r: nat)
    ensures r >= 1 && r * 36 >= length
    ensures r == 1 || (r - 1) * 36 < length
  {
    if length == 0 then 1 else (length + 35) / 36
  }

  /** `str_repeat($s, $n)`. */
  function Repeat(s: string, n: nat): (r: string)
    ensures n > 0 ==> s <= r
  {
    if n == 0 then [] else s + Repeat(s, n - 1)
  }

  /** `n` copies of `s` hold each character `n` times as often as `s`. */
  lemma {:induction false} RepeatMultiset(s: string, n: nat, c: char)
    ensures multiset(Repeat(s, n))[c] == n * multiset(s)[c]
  {
    if n > 0 {
      RepeatMultiset(s, n - 1, c);
      assert multiset(s + Repeat(s, n - 1)) == multiset(s) + multiset(Repeat(s, n - 1));
      assert n * multiset(s)[c] == (n - 1) * multiset(s)[c] + multiset(s)[c];
    }
  }

  /** The string `str_shuffle` rearranges for a slug of `length` characters. */
  function Pool(length: nat): (r: string) {
    Repeat(AllowedCharacters(), Repeats(length))
  }

  /** The pool holds at least the requested number of characters. */
  lemma PoolLength(length: nat)
    ensures |Pool(length)| >= length
  {
    var n := Repeats(length);
    RepeatLength(AllowedCharacters(), n);
    assert |AllowedCharacters()| == 36;
  }

  lemma {:induction false} RepeatLength(s: string, n: nat)
    ensures |Repeat(s, n)| == n * |s|
  {
    if n > 0 {
      RepeatLength(s, n - 1);
      assert n * |s| == (n - 1) * |s| + |s|;
    }
  }

  /** What `str_shuffle` promises: the same characters, in some order. */
  predicate IsShuffleOf(shuffled: string, original: string) {
    multiset(shuffled) == multiset(original)
  }

  /** Each character strictly below the next. */
  predicate Ascending(s: string) {
    forall i :: 0 <= i < |s| - 1 ==> s[i] < s[i + 1]
  }

  lemma {:induction false} AscendingHeadIsLeast(s: string)
    requires Ascending(s) && s != []
    ensures forall c :: c in s[1..] ==> s[0] < c
  {
    if |s| > 1 {
      assert Ascending(s[1..]);
      AscendingHeadIsLeast(s[1..]);
      assert s[1..][1..] == s[2..];
      forall c | c in s[1..] ensures s[0] < c {
        if c != s[1] {
          assert c in s[2..] by {
            var i :| 0 <= i < |s[1..]| && s[1..][i] == c;
            assert i > 0 && s[2..][i - 1] == c;
          }
        }
      }
    }
  }

  /** An ascending string holds each character at most once. */
  lemma {:induction false} AscendingHasNoRepeats(s: string)
    requires Ascending(s)
    ensures forall c :: multiset(s)[c] <= 1
  {
    if s != [] {
      assert Ascending(s[1..]);
      AscendingHasNoRepeats(s[1..]);
      AscendingHeadIsLeast(s);
      assert s == [s[0]] + s[1..];
      assert s[0] !in s[1..];
      assert multiset(s) == multiset{s[0]} + multiset(s[1..]);
    }
  }

  lemma AlphabetCharactersAreDistinct()
    ensures forall c :: multiset(AllowedCharacters())[c] <= 1
  {
    assert Ascending(AllowedCharacters());
    AscendingHasNoRepeats(AllowedCharacters());
  }

  lemma PrefixMultiset(s: string, k: nat)
    requires k <= |s|
    ensures multiset(s[..k]) <= multiset(s)
  {
    assert s == s[..k] + s[k..];
  }

  /** The first `k` characters of a rearrangement of `n` copies of a string
      without repeats come from that string, each at most `n` times. */
  lemma ShuffledPrefixBound(shuffled: string, alphabet: string, n: nat, k: nat)
    requires forall c :: multiset(alphabet)[c] <= 1
    requires IsShuffleOf(shuffled, Repeat(alphabet, n)) && k <= |shuffled|
    ensures forall i :: 0 <= i < k ==> shuffled[i] in alphabet
    ensures forall c :: multiset(shuffled[..k])[c] <= n
  {
    PrefixMultiset(shuffled, k);
    forall c ensures multiset(shuffled[..k])[c] <= n && (c in shuffled[..k] ==> c in alphabet) {
      var m := multiset(alphabet)[c];
      RepeatMultiset(alphabet, n, c);
      assert multiset(shuffled[..k])[c] <= multiset(Repeat(alphabet, n))[c] == n * m;
      if m == 0 {
        assert n * m == 0;
      } else {
        assert m == 1 && n * m == n;
      }
    }
    forall i | 0 <= i < k ensures shuffled[i] in alphabet {
      assert shuffled[..k][i] == shuffled[i];
    }
  }

  /** `randomAlphanumericString($length)`, given the shuffle `str_shuffle`
      produced: exactly `length` characters of the alphabet, none more often
      than the number of alphabet copies in the pool. */
  function RandomAlphanumericString(length: nat, shuffled: string): (r: string)
    requires IsShuffleOf(shuffled, Pool(length))
    ensures |r| == length
    ensures forall i :: 0 <= i < |r| ==> r[i] in AllowedCharacters()
    ensures forall c :: multiset(r)[c] <= Repeats(length)
  {
    PoolLength(length);
    assert |shuffled| == |multiset(shuffled)| == |Pool(length)|;
    AlphabetCharactersAreDistinct();
    ShuffledPrefixBound(shuffled, AllowedCharacters(), Repeats(length), length);
    shuffled[..length]
  }

  /** The random draws the generator may use: at least one per duplication
      check, each a rearrangement of the pool. */
  predicate SuitableDraws(length: nat, draws: seq<string>) {
    |draws| >= MaxDuplicationChecks && AllShuffles(length, draws)
  }

  /** Every draw is a rearrangement of the pool. */
  predicate AllShuffles(length: nat, draws: seq<string>) {
    draws == [] || (IsShuffleOf(draws[0], Pool(length)) && AllShuffles(length, draws[1..]))
  }

  lemma {:induction false} AllShufflesAt(length: nat, draws: seq<string>, k: nat)
    requires AllShuffles(length, draws) && k < |draws|
    ensures IsShuffleOf(draws[k], Pool(length))
  {
    if k > 0 {
      AllShufflesAt(length, draws[1..], k - 1);
    }
  }

  /** `SampleSlugGenerator`. The repository is represented by `taken`, the set
      of slugs its slug column already holds (`findOneBy(...) !== null`), and
      `str_shuffle` by the draws it returns, in order. */
  class SampleSlugGenerator {
    const slugLength: nat

    constructor (slugLength: nat)
      ensures this.slugLength == slugLength
    {
      this.slugLength := slugLength;
    }

    /** The `k`-th candidate slug. */
    function Candidate(draws: seq<string>, k: nat): (r: string)
      requires SuitableDraws(slugLength, draws) && k < |draws|
      ensures |r| == slugLength
    {
      AllShufflesAt(slugLength, draws, k);
      RandomAlphanumericString(slugLength, draws[k])
    }

    /** The first `n` candidates are all taken. */
    predicate TakenUpTo(taken: set<string>, draws: seq<string>, n: nat)
      requires SuitableDraws(slugLength, draws) && n <= |draws|
    {
      forall k :: 0 <= k < n ==> Candidate(draws, k) in taken
    }

    /** The index of the first unused candidate among those from `from` up
        to the last duplication check, if there is one. */
    function FirstUnused(taken: set<string>, draws: seq<string>, from: nat): (r: Option<nat>)
      requires SuitableDraws(slugLength, draws) && from <= MaxDuplicationChecks
      ensures r.Some? ==> from <= r.value < MaxDuplicationChecks && Candidate(draws, r.value) !in taken
      ensures r.Some? ==> forall k :: from <= k < r.value ==> Candidate(draws, k) in taken
      ensures r.None? <==> forall k :: from <= k < MaxDuplicationChecks ==> Candidate(draws, k) in taken
      decreases MaxDuplicationChecks - from
    {
      if from == MaxDuplicationChecks then None
      else if Candidate(draws, from) !in taken then Some(from)
      else FirstUnused(taken, draws, from + 1)
    }

    /** The first `n` candidates taken and the next one unused: that one is
        the first unused candidate. */
    lemma {:induction false} FirstUnusedIs(taken: set<string>, draws: seq<string>, from: nat, n: nat)
      requires SuitableDraws(slugLength, draws) && from <= n < MaxDuplicationChecks
      requires forall k :: from <= k < n ==> Candidate(draws, k) in taken
      requires Candidate(draws, n) !in taken
      ensures FirstUnused(taken, draws, from) == Some(n)
      decreases n - from
    {
      if from < n {
        FirstUnusedIs(taken, draws, from + 1, n);
      }
    }

    /** What the source's `generate` returns: the first unused candidate,
        provided it is one of the first nine. */
    function AsWrittenSlug(taken: set<string>, draws: seq<string>): (r: Result<string, SlugGeneratorError>)
      requires SuitableDraws(slugLength, draws)
      ensures r.Success? <==> !TakenUpTo(taken, draws, MaxDuplicationChecks - 1)
      ensures r.Success? ==> r.value !in taken && |r.value| == slugLength
    {
      var first := FirstUnused(taken, draws, 0);
      if first.Some? && first.value < MaxDuplicationChecks - 1 then Success(Candidate(draws, first.value))
      else Failure(DuplicationChecksExceeded)
    }

    /** What `generate` is meant to return: the first unused candidate among
        the ten, and the exception when all ten are taken. */
    function IntendedSlug(taken: set<string>, draws: seq<string>): (r: Result<string, SlugGeneratorError>)
      requires SuitableDraws(slugLength, draws)
      ensures r.Success? <==> !TakenUpTo(taken, draws, MaxDuplicationChecks)
      ensures r.Success? ==> r.value !in taken && |r.value| == slugLength
    {
      var first := FirstUnused(taken, draws, 0);
      if first.Some? then Success(Candidate(draws, first.value)) else Failure(DuplicationChecksExceeded)
    }

    /** `generate` as written: a candidate is drawn and looked up, at most ten
        times, and the loop ends at the first unused candidate or when `tries`
        reaches 0. The exception is decided by `tries === 0`, so the result of
        the tenth lookup is ignored. `lookups` counts the candidates drawn and
        looked up. */
    method Generate(taken: set<string>, draws: seq<string>) returns (r: Result<string, SlugGeneratorError>, lookups: nat)
      requires SuitableDraws(slugLength, draws)
      ensures r == AsWrittenSlug(taken, draws)
      ensures 1 <= lookups <= MaxDuplicationChecks
      ensures TakenUpTo(taken, draws, lookups - 1)
      ensures r.Success? ==> lookups < MaxDuplicationChecks
      ensures r.Success? ==> r.value == Candidate(draws, lookups - 1) && r.value !in taken
      ensures r.Failure? ==> lookups == MaxDuplicationChecks
    {
      var tries := MaxDuplicationChecks;
      var slug := Candidate(draws, 0);
      tries, lookups := tries - 1, 1;
      while slug in taken && tries > 0
        invariant 1 <= lookups <= MaxDuplicationChecks
        invariant tries == MaxDuplicationChecks - lookups
        invariant slug == Candidate(draws, lookups - 1)
        invariant TakenUpTo(taken, draws, lookups - 1)
      {
        slug := Candidate(draws, lookups);
        tries, lookups := tries - 1, lookups + 1;
      }
      if slug !in taken {
        FirstUnusedIs(taken, draws, 0, lookups - 1);
      }
      if tries == 0 {
        return Failure(DuplicationChecksExceeded), lookups;
      }
      r := Success(slug);
    }

    /** `generate` with the exception decided by the last lookup, as the
        constant's name intends: up to ten candidates are checked, and the
        first unused one is the slug. */
    method GenerateIntended(taken: set<string>, draws: seq<string>) returns (r: Result<string, SlugGeneratorError>, lookups: nat)
      requires SuitableDraws(slugLength, draws)
      ensures r == IntendedSlug(taken, draws)
      ensures 1 <= lookups <= MaxDuplicationChecks
      ensures TakenUpTo(taken, draws, lookups - 1)
      ensures r.Success? ==> r.value == Candidate(draws, lookups - 1) && r.value !in taken
      ensures r.Failure? ==> lookups == MaxDuplicationChecks && TakenUpTo(taken, draws, MaxDuplicationChecks)
    {
      var tries := MaxDuplicationChecks;
      var slug := Candidate(draws, 0);
      tries, lookups := tries - 1, 1;
      while slug in taken && tries > 0
        invariant 1 <= lookups <= MaxDuplicationChecks
        invariant tries == MaxDuplicationChecks - lookups
        invariant slug == Candidate(draws, lookups - 1)
        invariant TakenUpTo(taken, draws, lookups - 1)
      {
        slug := Candidate(draws, lookups);
        tries, lookups := tries - 1, lookups + 1;
      }
      if slug in taken {
        assert lookups == MaxDuplicationChecks;
        assert TakenUpTo(taken, draws, MaxDuplicationChecks);
        return Failure(DuplicationChecksExceeded), lookups;
      }
      FirstUnusedIs(taken, draws, 0, lookups - 1);
      r := Success(slug);
    }

    /** A slug either version returns is an unused lowercase alphanumeric
        string of the configured length. */
    lemma IntendedSlugIsFresh(taken: set<string>, draws: seq<string>)
      requires SuitableDraws(slugLength, draws)
      ensures AsWrittenSlug(taken, draws).Success? ==> AsWrittenSlug(taken, draws) == IntendedSlug(taken, draws)
      ensures IntendedSlug(taken, draws).Success? ==>
        var slug := IntendedSlug(taken, draws).value;
        && slug !in taken && |slug| == slugLength
        && forall i :: 0 <= i < |slug| ==> slug[i] in AllowedCharacters()
    {
      var first := FirstUnused(taken, draws, 0);
      if first.Some? {
        AllShufflesAt(slugLength, draws, first.value);
      }
    }

    /** With every candidate taken, both versions throw. */
    lemma AllTakenExhausts(taken: set<string>, draws: seq<string>)
      requires SuitableDraws(slugLength, draws)
      requires TakenUpTo(taken, draws, MaxDuplicationChecks)
      ensures AsWrittenSlug(taken, draws) == Failure(DuplicationChecksExceeded)
      ensures IntendedSlug(taken, draws) == Failure(DuplicationChecksExceeded)
    {
    }

    /** The off-by-one: with the first nine candidates taken and the tenth
        unused, the source throws, while the intended version returns the
        tenth candidate. */
    lemma TenthCandidateFree(taken: set<string>, draws: seq<string>)
      requires SuitableDraws(slugLength, draws)
      requires TakenUpTo(taken, draws, MaxDuplicationChecks - 1)
      requires Candidate(draws, MaxDuplicationChecks - 1) !in taken
      ensures AsWrittenSlug(taken, draws) == Failure(DuplicationChecksExceeded)
      ensures IntendedSlug(taken, draws) == Success(Candidate(draws, MaxDuplicationChecks - 1))
    {
      FirstUnusedIs(taken, draws, 0, MaxDuplicationChecks - 1);
    }
  }
}
