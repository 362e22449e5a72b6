/**
 * Referral codes: generation from an alphabet and the validator applied to codes
 * that arrive from callers (src/referrals/referralCode.js).
 *
 * Randomness is an abstract oracle: `RandomSource` answers its i-th draw for the
 * exclusive bound n with `oracle(i, n)`. The cryptographic source and the stub
 * used by the tests are both oracles that stay inside `[0, n)`, which is what
 * `Honest` states.
 */
module ReferralCode {
  import opened Common

  const Digits: string := "0123456789"
  const LowerLetters: string := "abcdefghijklmnopqrstuvwxyz"
  const UpperLetters: string := "ABCDEFGHIJKLMNOPQRSTUVWXYZ"

  /**
   * DEFAULT_ALPHABET (exported as REFERRAL_CODE_ALPHABET): the 62-character
   * string of the digits, then the lower-case, then the upper-case letters.
   */
  const DefaultAlphabet: string := Digits + LowerLetters + UpperLetters

  const DefaultLength: int := 6
  const MinCodeLength: int := 4
  const MinAlphabetLength: int := 10
  const DefaultMinLength: int := 4
  const DefaultMaxLength: int := 32

  /** The options object of generateReferralCode; an absent field takes its default. */
  datatype GenerateOptions = GenerateOptions(length: Option<int>, alphabet: Option<string>)

  /** The options object of isValidReferralCode. */
  datatype ValidateOptions = ValidateOptions(minLength: Option<int>, maxLength: Option<int>)

  const NoValidateOptions := ValidateOptions(None, None)

  class RandomSource {
    /** `oracle(i, n)` is the value of the i-th draw overall when the exclusive bound is n. */
    const oracle: (nat, int) -> int
    /** How many values have been drawn so far. */
    var drawn: nat

    constructor (oracle: (nat, int) -> int)
      ensures this.oracle == oracle && drawn == 0
    {
      this.oracle := oracle;
      drawn := 0;
    }

    /** Every draw lies in `[0, n)`, as `crypto.randomInt(0, n)` promises. */
    ghost predicate Honest() {
      forall i: nat, n: int :: n > 0 ==> 0 <= oracle(i, n) < n
    }

    /** `randomInt(maxExclusive)`: the next draw. */
    method RandomInt(maxExclusive: int) returns (r: int)
      modifies this
      ensures r == oracle(old(drawn), maxExclusive)
      ensures drawn == old(drawn) + 1
    {
      r := oracle(drawn, maxExclusive);
      drawn := drawn + 1;
    }
  }

  /** The `count` draws an oracle gives from position `start` on, for the bound `n`. */
  function Draws(oracle: (nat, int) -> int, start: nat, count: nat, n: int): (d: seq<int>)
    ensures |d| == count
    ensures forall i :: 0 <= i < count ==> d[i] == oracle(start + i, n)
  {
    seq(count, i requires 0 <= i < count => oracle(start + i, n))
  }

  /**
   * The text `alphabet[k]` contributes to `code +=`: the character at `k`, or,
   * when `k` is out of range, `String(undefined)`.
   */
  function CharAt(alphabet: string, k: int): (piece: string)
    ensures 0 <= k < |alphabet| ==> piece == [alphabet[k]]
    ensures !(0 <= k < |alphabet|) ==> piece == "undefined"
  {
    if 0 <= k < |alphabet| then [alphabet[k]] else "undefined"
  }

  /** The code the loop of generateReferralCode builds from the given draws. */
  function CodeFromDraws(alphabet: string, draws: seq<int>): (code: string)
    ensures |draws| <= |code| <= 9 * |draws|
    ensures (forall i :: 0 <= i < |draws| ==> 0 <= draws[i] < |alphabet|) ==> |code| == |draws|
  {
    if draws == [] then [] else CodeFromDraws(alphabet, draws[..|draws| - 1]) + CharAt(alphabet, draws[|draws| - 1])
  }

  /** With every draw in range, the code has one character per draw: the alphabet's character at that draw. */
  lemma {:induction false} CodeFromDrawsPicks(alphabet: string, draws: seq<int>)
    requires forall i :: 0 <= i < |draws| ==> 0 <= draws[i] < |alphabet|
    ensures |CodeFromDraws(alphabet, draws)| == |draws|
    ensures forall i :: 0 <= i < |draws| ==> CodeFromDraws(alphabet, draws)[i] == alphabet[draws[i]]
  {
    if draws != [] {
      CodeFromDrawsPicks(alphabet, draws[..|draws| - 1]);
    }
  }

  /** An honest oracle gives a code of the requested length over the alphabet. */
  lemma HonestCodeShape(rng: RandomSource, start: nat, length: nat, alphabet: string)
    requires rng.Honest() && |alphabet| > 0
    ensures |CodeFromDraws(alphabet, Draws(rng.oracle, start, length, |alphabet|))| == length
    ensures forall i :: 0 <= i < length ==>
              CodeFromDraws(alphabet, Draws(rng.oracle, start, length, |alphabet|))[i] in alphabet
  {
    var d := Draws(rng.oracle, start, length, |alphabet|);
    CodeFromDrawsPicks(alphabet, d);
  }

  /**
   * generateReferralCode: rejects a length below 4 and an alphabet shorter than
   * 10 (in that order, drawing nothing), otherwise appends one character per draw.
   */
  method GenerateReferralCode(options: GenerateOptions, rng: RandomSource) returns (r: Result<string>)
    modifies rng
    ensures var length := if options.length.Some? then options.length.value else DefaultLength;
            var alphabet := if options.alphabet.Some? then options.alphabet.value else DefaultAlphabet;
            && (length < MinCodeLength ==> r == Err(LengthInvalid) && rng.drawn == old(rng.drawn))
            && (length >= MinCodeLength && |alphabet| < MinAlphabetLength ==>
                  r == Err(AlphabetTooShort) && rng.drawn == old(rng.drawn))
            && (length >= MinCodeLength && |alphabet| >= MinAlphabetLength ==>
                  && r == Ok(CodeFromDraws(alphabet, Draws(rng.oracle, old(rng.drawn), length, |alphabet|)))
                  && rng.drawn == old(rng.drawn) + length)
  {
    var length := if options.length.Some? then options.length.value else DefaultLength;
    var alphabet := if options.alphabet.Some? then options.alphabet.value else DefaultAlphabet;
    if length < MinCodeLength {
      return Err(LengthInvalid);
    }
    if |alphabet| < MinAlphabetLength {
      return Err(AlphabetTooShort);
    }
    var code := DrawCode(alphabet, length, rng);
    return Ok(code);
  }

  /** The loop of generateReferralCode: one draw below `|alphabet|` per character, appended in order. */
  method DrawCode(alphabet: string, length: nat, rng: RandomSource) returns (code: string)
    modifies rng
    ensures code == CodeFromDraws(alphabet, Draws(rng.oracle, old(rng.drawn), length, |alphabet|))
    ensures rng.drawn == old(rng.drawn) + length
  {
    ghost var start := rng.drawn;
    code := "";
    var i := 0;
    while i < length
      invariant 0 <= i <= length
      invariant rng.drawn == start + i
      invariant code == CodeFromDraws(alphabet, Draws(rng.oracle, start, i, |alphabet|))
    {
      var k := rng.RandomInt(|alphabet|);
      assert Draws(rng.oracle, start, i + 1, |alphabet|)[..i] == Draws(rng.oracle, start, i, |alphabet|);
      code := code + CharAt(alphabet, k);
      i := i + 1;
    }
  }

  // ---------------------------------------------------------------------------
  // Validation

  /** The regular expression `^[A-Za-z0-9]+$`, matched one character at a time. */
  function MatchesAlnumPlus(s: string): (matched: bool)
    ensures matched <==> s != [] && AllAsciiAlnum(s)
  {
    if |s| > 1 then
      assert forall i :: 1 <= i < |s| ==> s[i] == s[1..][i - 1];
      IsAsciiAlnum(s[0]) && MatchesAlnumPlus(s[1..])
    else
      |s| == 1 && IsAsciiAlnum(s[0])
  }

  /**
   * isValidReferralCode: `code` is None for a value that is not a string.
   */
  function IsValidReferralCode(code: Option<string>, options: ValidateOptions): (valid: bool)
    ensures var minLength := if options.minLength.Some? then options.minLength.value else DefaultMinLength;
            var maxLength := if options.maxLength.Some? then options.maxLength.value else DefaultMaxLength;
            valid <==> && code.Some?
                       && minLength <= |code.value| <= maxLength
                       && |code.value| >= 1
                       && AllAsciiAlnum(code.value)
  {
    var minLength := if options.minLength.Some? then options.minLength.value else DefaultMinLength;
    var maxLength := if options.maxLength.Some? then options.maxLength.value else DefaultMaxLength;
    if code.None? then false
    else if |code.value| < minLength || |code.value| > maxLength then false
    else
      MatchesAlnumPlus(code.value)
  }

  /** The code point at each position of the default alphabet. */
  lemma DefaultAlphabetCodePoints()
    ensures |DefaultAlphabet| == 62
    ensures forall i :: 0 <= i < 10 ==> DefaultAlphabet[i] as int == '0' as int + i
    ensures forall i :: 10 <= i < 36 ==> DefaultAlphabet[i] as int == 'a' as int + (i - 10)
    ensures forall i :: 36 <= i < 62 ==> DefaultAlphabet[i] as int == 'A' as int + (i - 36)
  {
    assert forall i :: 0 <= i < 10 ==> Digits[i] as int == '0' as int + i;
    assert forall i :: 0 <= i < 26 ==> LowerLetters[i] as int == 'a' as int + i;
    assert forall i :: 0 <= i < 26 ==> UpperLetters[i] as int == 'A' as int + i;
  }

  lemma DefaultAlphabetMembersAreAlnum()
    ensures forall c :: c in DefaultAlphabet ==> IsAsciiAlnum(c)
  {
    DefaultAlphabetCodePoints();
    forall c | c in DefaultAlphabet ensures IsAsciiAlnum(c) {
      var i :| 0 <= i < 62 && DefaultAlphabet[i] == c;
    }
  }

  lemma AlnumInDefaultAlphabet()
    ensures forall c :: IsAsciiAlnum(c) ==> c in DefaultAlphabet
  {
    forall c | IsAsciiAlnum(c) ensures c in DefaultAlphabet {
      var k := if IsAsciiDigit(c) then c as int - '0' as int
               else if IsAsciiLower(c) then c as int - 'a' as int + 10
               else c as int - 'A' as int + 36;
      AlphabetIndexOf(c, k);
    }
  }

  lemma AlphabetIndexOf(c: char, k: int)
    requires IsAsciiAlnum(c)
    requires k == if IsAsciiDigit(c) then c as int - '0' as int
                  else if IsAsciiLower(c) then c as int - 'a' as int + 10
                  else c as int - 'A' as int + 36
    ensures 0 <= k < |DefaultAlphabet| && DefaultAlphabet[k] == c
  {
    DefaultAlphabetCodePoints();
  }

  lemma DefaultAlphabetDistinct()
    ensures forall i, j :: 0 <= i < j < |DefaultAlphabet| ==> DefaultAlphabet[i] != DefaultAlphabet[j]
  {
    DefaultAlphabetCodePoints();
  }

  /** The default alphabet is exactly the 62 characters of `[A-Za-z0-9]`, each once. */
  lemma DefaultAlphabetIsAlnum()
    ensures |DefaultAlphabet| == 62
    ensures forall c :: c in DefaultAlphabet <==> IsAsciiAlnum(c)
    ensures forall i, j :: 0 <= i < j < |DefaultAlphabet| ==> DefaultAlphabet[i] != DefaultAlphabet[j]
  {
    DefaultAlphabetCodePoints();
    DefaultAlphabetMembersAreAlnum();
    AlnumInDefaultAlphabet();
    DefaultAlphabetDistinct();
  }

  /**
   * Round trip: every code generated with the default alphabet and a length the
   * validator admits (6 and 8 in the tests) passes the default validation.
   */
  lemma GeneratedCodeIsValid(rng: RandomSource, start: nat, length: int)
    requires rng.Honest()
    requires MinCodeLength <= length <= DefaultMaxLength
    ensures IsValidReferralCode(Some(CodeFromDraws(DefaultAlphabet, Draws(rng.oracle, start, length, 62))), NoValidateOptions)
  {
    DefaultAlphabetIsAlnum();
    var code := CodeFromDraws(DefaultAlphabet, Draws(rng.oracle, start, length, 62));
    HonestCodeShape(rng, start, length, DefaultAlphabet);
    forall i | 0 <= i < |code| ensures IsAsciiAlnum(code[i]) {
      assert code[i] in DefaultAlphabet;
    }
  }

  /** The test stub `randomInt: (max) => max - 1` yields the last letter repeated. */
  lemma LastLetterStub()
    ensures CodeFromDraws(DefaultAlphabet, Draws((i: nat, n: int) => n - 1, 0, 6, 62)) == "ZZZZZZ"
    ensures IsValidReferralCode(Some("ZZZZZZ"), NoValidateOptions)
  {
    var d := Draws((i: nat, n: int) => n - 1, 0, 6, 62);
    CodeFromDrawsPicks(DefaultAlphabet, d);
    assert DefaultAlphabet[61] == 'Z';
  }

  /** The empty string, an underscore and a space are all rejected. */
  lemma RejectsNonUrlSafe()
    ensures !IsValidReferralCode(Some(""), NoValidateOptions)
    ensures !IsValidReferralCode(Some("ab_cd"), NoValidateOptions)
    ensures !IsValidReferralCode(Some("ab cd"), NoValidateOptions)
    ensures !IsValidReferralCode(None, NoValidateOptions)
  {
    assert !IsAsciiAlnum("ab_cd"[2]);
    assert !IsAsciiAlnum("ab cd"[2]);
  }
}
