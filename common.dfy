/**
 * Shared vocabulary of the referral core: optional values, results carrying the
 * errors the JavaScript code throws, and the few string operations of the
 * JavaScript runtime the core relies on (String.prototype.trim, an ASCII view of
 * toLowerCase, and the decimal rendering of a counter in a template literal).
 */
module Common {

  datatype Option<+T> = None | Some(value: T)

  /** Every `throw new Error(...)` of the core, one constructor per message. */
  datatype Error =
    | LengthInvalid       // 'length must be an integer >= 4'
    | AlphabetTooShort    // 'alphabet must be a non-empty string'
    | EmailRequired       // 'email is required'
    | CodeSpaceExhausted  // 'failed to generate unique referral code'
    | UserNotFound        // 'user not found'
    | RepositoryRequired  // 'repository is required'
    | BaseUrlRequired     // 'baseUrl is required'

  datatype Result<+T> = Ok(value: T) | Err(error: Error)

  // ---------------------------------------------------------------------------
  // Characters

  /** WhiteSpace and LineTerminator code points of ECMAScript, the set `trim` removes. */
  predicate IsJsWhitespace(c: char) {
    || c == '\t' || c == '\n' || c == '\U{B}' || c == '\U{C}' || c == '\r' || c == ' '
    || c == '\U{A0}' || c == '\U{1680}' || ('\U{2000}' <= c <= '\U{200A}')
    || c == '\U{2028}' || c == '\U{2029}' || c == '\U{202F}' || c == '\U{205F}'
    || c == '\U{3000}' || c == '\U{FEFF}'
  }

  predicate IsAsciiDigit(c: char) { '0' <= c <= '9' }

  predicate IsAsciiUpper(c: char) { 'A' <= c <= 'Z' }

  predicate IsAsciiLower(c: char) { 'a' <= c <= 'z' }

  /** The character class `[A-Za-z0-9]`. */
  predicate IsAsciiAlnum(c: char) { IsAsciiDigit(c) || IsAsciiUpper(c) || IsAsciiLower(c) }

  predicate AllAsciiAlnum(s: string) { forall i :: 0 <= i < |s| ==> IsAsciiAlnum(s[i]) }

  function Max(a: int, b: int): int { if a < b then b else a }

  function Min(a: int, b: int): int { if a < b then a else b }

  // ---------------------------------------------------------------------------
  // String.prototype.trim

  /** The number of whitespace characters at the start of `s`. */
  function LeadingWhitespace(s: string): (n: nat)
    ensures n <= |s|
    ensures forall i :: 0 <= i < n ==> IsJsWhitespace(s[i])
    ensures n == |s| || !IsJsWhitespace(s[n])
  {
    if s == [] || !IsJsWhitespace(s[0]) then 0 else 1 + LeadingWhitespace(s[1..])
  }

  /** The number of whitespace characters at the end of `s`. */
  function TrailingWhitespace(s: string): (n: nat)
    ensures n <= |s|
    ensures forall i :: |s| - n <= i < |s| ==> IsJsWhitespace(s[i])
    ensures n == |s| || !IsJsWhitespace(s[|s| - n - 1])
  {
    if s == [] || !IsJsWhitespace(s[|s| - 1]) then 0 else 1 + TrailingWhitespace(s[..|s| - 1])
  }

  /**
   * `s.trim()`: the longest infix of `s` that neither starts nor ends with
   * whitespace, obtained by dropping whitespace from both ends only.
   */
  function Trim(s: string): (r: string)
    ensures |r| <= |s|
    ensures r == [] || (!IsJsWhitespace(r[0]) && !IsJsWhitespace(r[|r| - 1]))
    ensures r == [] <==> forall i :: 0 <= i < |s| ==> IsJsWhitespace(s[i])
    ensures (forall i :: 0 <= i < |s| ==> !IsJsWhitespace(s[i])) ==> r == s
    ensures LeadingWhitespace(s) + |r| <= |s| && r == s[LeadingWhitespace(s)..LeadingWhitespace(s) + |r|]
    ensures forall i :: LeadingWhitespace(s) + |r| <= i < |s| ==> IsJsWhitespace(s[i])
  {
    var t := s[LeadingWhitespace(s)..];
    var u := t[..|t| - TrailingWhitespace(t)];
    assert t != [] ==> !IsJsWhitespace(t[0]);
    u
  }

  predicate AllWhitespace(s: string) { forall i :: 0 <= i < |s| ==> IsJsWhitespace(s[i]) }

  /**
   * Trim(s) is the only part `r` of a split `s == pre + r + post` in which
   * `pre` and `post` are whitespace and `r` neither starts nor ends with it.
   */
  lemma TrimUnique(s: string, pre: string, r: string, post: string)
    requires s == pre + r + post && AllWhitespace(pre) && AllWhitespace(post)
    requires r == [] || (!IsJsWhitespace(r[0]) && !IsJsWhitespace(r[|r| - 1]))
    ensures Trim(s) == r
  {
    if r == [] {
      assert forall i :: 0 <= i < |s| ==> IsJsWhitespace(s[i]) by {
        forall i | 0 <= i < |s| ensures IsJsWhitespace(s[i]) {
          if i < |pre| { assert s[i] == pre[i]; } else { assert s[i] == post[i - |pre|]; }
        }
      }
    } else {
      var t := Trim(s);
      var lead := LeadingWhitespace(s);
      assert s[|pre|] == r[0];
      assert lead == |pre|;
      var e, e' := lead + |t|, |pre| + |r|;
      assert s[e' - 1] == r[|r| - 1];
      assert t != [];
      assert s[e - 1] == t[|t| - 1];
      assert e == e';
      assert s[|pre|..|pre| + |r|] == r;
    }
  }

  lemma Regroup<T>(a: seq<T>, b: seq<T>, c: seq<T>, d: seq<T>, e: seq<T>)
    ensures a + (b + c + d) + e == (a + b) + c + (d + e)
  {
  }

  /** Every string is its trim between two runs of whitespace. */
  lemma TrimSplit(s: string) returns (pre: string, post: string)
    ensures s == pre + Trim(s) + post && AllWhitespace(pre) && AllWhitespace(post)
  {
    var r := Trim(s);
    var lead := LeadingWhitespace(s);
    pre, post := s[..lead], s[lead + |r|..];
    assert s == pre + r + post;
    assert AllWhitespace(post) by {
      forall i | 0 <= i < |post| ensures IsJsWhitespace(post[i]) {
        assert post[i] == s[lead + |r| + i];
      }
    }
  }

  lemma AllWhitespaceAppend(a: string, b: string)
    requires AllWhitespace(a) && AllWhitespace(b)
    ensures AllWhitespace(a + b)
  {
    forall i | 0 <= i < |a + b| ensures IsJsWhitespace((a + b)[i]) {
      if i >= |a| { assert (a + b)[i] == b[i - |a|]; }
    }
  }

  /** Trimming ignores whitespace padding on either side. */
  lemma TrimIgnoresPadding(pre: string, s: string, post: string)
    requires AllWhitespace(pre) && AllWhitespace(post)
    ensures Trim(pre + s + post) == Trim(s)
  {
    var r := Trim(s);
    var w1, w2 := TrimSplit(s);
    AllWhitespaceAppend(pre, w1);
    AllWhitespaceAppend(w2, post);
    Regroup(pre, w1, r, w2, post);
    TrimUnique(pre + s + post, pre + w1, r, w2 + post);
  }

  /** Trimming twice is trimming once. */
  lemma TrimIdempotent(s: string)
    ensures Trim(Trim(s)) == Trim(s)
  {
  }

  // ---------------------------------------------------------------------------
  // String.prototype.toLowerCase, on the ASCII range

  function AsciiLower(c: char): (d: char)
    ensures !IsAsciiUpper(d)
    ensures IsAsciiUpper(c) || d == c
  {
    if IsAsciiUpper(c) then (c as int + 32) as char else c
  }

  /** `s.toLowerCase()` for the letters A to Z; every other character is kept. */
  function ToLowerCase(s: string): (r: string)
    ensures |r| == |s|
    ensures forall i :: 0 <= i < |s| ==> r[i] == AsciiLower(s[i])
  {
    seq(|s|, i requires 0 <= i < |s| => AsciiLower(s[i]))
  }

  /** Lower-casing changes no character that is not an ASCII upper-case letter, so
      it keeps the length and never turns whitespace into non-whitespace. */
  lemma ToLowerCaseKeepsWhitespace(s: string)
    ensures forall i :: 0 <= i < |s| ==> (IsJsWhitespace(ToLowerCase(s)[i]) <==> IsJsWhitespace(s[i]))
  {
  }

  /** Lower-casing twice is lower-casing once. */
  lemma ToLowerCaseIdempotent(s: string)
    ensures ToLowerCase(ToLowerCase(s)) == ToLowerCase(s)
  {
  }

  lemma ToLowerCaseSplits(a: string, b: string, c: string)
    ensures ToLowerCase(a + b + c) == ToLowerCase(a) + ToLowerCase(b) + ToLowerCase(c)
  {
  }

  lemma ToLowerCaseKeepsAllWhitespace(s: string)
    requires AllWhitespace(s)
    ensures AllWhitespace(ToLowerCase(s))
  {
    ToLowerCaseKeepsWhitespace(s);
  }

  lemma ToLowerCaseKeepsEnds(s: string)
    requires s != [] && !IsJsWhitespace(s[0]) && !IsJsWhitespace(s[|s| - 1])
    ensures !IsJsWhitespace(ToLowerCase(s)[0]) && !IsJsWhitespace(ToLowerCase(s)[|s| - 1])
  {
    ToLowerCaseKeepsWhitespace(s);
  }

  /** Trimming and lower-casing can be done in either order. */
  lemma TrimLowerCommute(s: string)
    ensures Trim(ToLowerCase(s)) == ToLowerCase(Trim(s))
  {
    var r := Trim(s);
    var w1, w2 := TrimSplit(s);
    ToLowerCaseSplits(w1, r, w2);
    ToLowerCaseKeepsAllWhitespace(w1);
    ToLowerCaseKeepsAllWhitespace(w2);
    if r != [] {
      ToLowerCaseKeepsEnds(r);
    }
    TrimUnique(ToLowerCase(s), ToLowerCase(w1), ToLowerCase(r), ToLowerCase(w2));
  }

  // ---------------------------------------------------------------------------
  // Decimal rendering of a counter, as in the template literal `user_${n}`

  function DigitChar(d: nat): (c: char)
    requires d < 10
    ensures IsAsciiDigit(c) && c as int - '0' as int == d
  {
    ('0' as int + d) as char
  }

  /** The decimal numeral of `n`, without leading zeros. */
  function Decimal(n: nat): (r: string)
    ensures |r| >= 1
    ensures forall i :: 0 <= i < |r| ==> IsAsciiDigit(r[i])
    ensures (|r| == 1) == (n < 10)
    ensures r[|r| - 1] as int - '0' as int == n % 10
    decreases n
  {
    if n < 10 then [DigitChar(n)] else Decimal(n / 10) + [DigitChar(n % 10)]
  }

  /** Distinct numbers have distinct numerals, so `user_${n}` never repeats an id. */
  lemma {:induction false} DecimalInjective(a: nat, b: nat)
    requires Decimal(a) == Decimal(b)
    ensures a == b
    decreases a
  {
    var ra, rb := Decimal(a), Decimal(b);
    assert a % 10 == b % 10;
    if a >= 10 {
      assert b >= 10;
      assert Decimal(a / 10) == ra[..|ra| - 1];
      assert Decimal(b / 10) == rb[..|rb| - 1];
      DecimalInjective(a / 10, b / 10);
    }
  }
}
