/** The canonical spelling of addresses, transaction ids and token ids. */
module Spelling {
  import opened Numerals
  import opened Events

  // ----- characters -----

  /** The Unicode White_Space characters, as `str::trim` sees them. */
  predicate IsWhitespace(c: char) {
    var k := c as int;
    || 9 <= k <= 13 || k == 32 || k == 0x85 || k == 0xA0 || k == 0x1680
    || 0x2000 <= k <= 0x200A || k == 0x2028 || k == 0x2029 || k == 0x202F || k == 0x205F || k == 0x3000
  }

  predicate IsUpper(c: char) { 'A' <= c <= 'Z' }

  predicate IsDigit(c: char) { '0' <= c <= '9' }

  function LowerChar(c: char): (r: char)
    ensures !IsUpper(r)
    ensures IsWhitespace(r) <==> IsWhitespace(c)
    ensures IsDigit(r) <==> IsDigit(c)
    ensures !IsUpper(c) ==> r == c
  {
    if IsUpper(c) then (c as int + 32) as char else c
  }

  function Lower(s: string): (r: string)
    ensures |r| == |s| && forall i | 0 <= i < |s| :: r[i] == LowerChar(s[i])
  {
    seq(|s|, i requires 0 <= i < |s| => LowerChar(s[i]))
  }

  predicate AllDigits(s: string) { forall i | 0 <= i < |s| :: IsDigit(s[i]) }

  predicate NoUpper(s: string) { forall i | 0 <= i < |s| :: !IsUpper(s[i]) }

  // ----- trimming -----

  function TrimStart(s: string): (r: string)
    ensures r != [] ==> !IsWhitespace(r[0])
    ensures s == [] || !IsWhitespace(s[0]) ==> r == s
    ensures |r| <= |s| && r == s[|s| - |r|..]
  {
    if s != [] && IsWhitespace(s[0]) then TrimStart(s[1..]) else s
  }

  function TrimEnd(s: string): (r: string)
    ensures r != [] ==> !IsWhitespace(r[|r| - 1])
    ensures s == [] || !IsWhitespace(s[|s| - 1]) ==> r == s
    ensures |r| <= |s| && r == s[..|r|]
  {
    if s != [] && IsWhitespace(s[|s| - 1]) then TrimEnd(s[..|s| - 1]) else s
  }

  /** No white space at either end. */
  predicate Trimmed(s: string) {
    s == [] || (!IsWhitespace(s[0]) && !IsWhitespace(s[|s| - 1]))
  }

  function Trim(s: string): (r: string)
    ensures Trimmed(r)
    ensures Trimmed(s) ==> r == s
    ensures |r| <= |s|
  {
    TrimEnd(TrimStart(s))
  }

  lemma TrimSameLength(s: string)
    ensures |Trim(s)| == |s| ==> Trim(s) == s
  {
    hide TrimStart, TrimEnd;
    var t := TrimStart(s);
    assert |t| == |s| ==> s[0..] == s && t[..|t|] == t;
  }

  // ----- the canonical spelling -----

  function StripZeros(s: string): (r: string) {
    s[Leading<char>(s, '0')..]
  }

  /** White space goes; on an EVM chain letters become lower case, and a decimal
      token id loses its leading zeros. */
  function Canonical(chain: ChainId, value: string, tokenId: bool): string {
    var trimmed := Trim(value);
    if !chain.IsEvm() then trimmed
    else if tokenId && trimmed != [] && AllDigits(trimmed) then
      var digits := StripZeros(trimmed);
      if digits == [] then "0" else digits
    else Lower(trimmed)
  }

  /** The routine as it stands: it touches the value only when something changes. */
  method CanonicalizeArc(chain: ChainId, value: string, tokenId: bool) returns (r: string)
    ensures r == Canonical(chain, value, tokenId)
  {
    hide Trim, StripZeros;
    TrimSameLength(value);
    var trimmed := Trim(value);
    if !chain.IsEvm() {
      return if |trimmed| != |value| then trimmed else value;
    }
    if tokenId && trimmed != [] && AllDigits(trimmed) {
      var digits := StripZeros(trimmed);
      var normalized := if digits == [] then "0" else digits;
      return if normalized != value then normalized else value;
    }
    if |trimmed| == |value| && NoUpper(trimmed) {
      assert Lower(trimmed) == trimmed;
      return value;
    }
    return Lower(trimmed);
  }

  lemma LowerTrimmed(s: string)
    requires Trimmed(s)
    ensures Trimmed(Lower(s)) && Trim(Lower(s)) == Lower(s) && Lower(Lower(s)) == Lower(s)
    ensures AllDigits(Lower(s)) <==> AllDigits(s)
  {
    var t := Lower(s);
    LowerDigits(s);
    assert Trimmed(t) by {
      assert s != [] ==> t[0] == LowerChar(s[0]) && t[|s| - 1] == LowerChar(s[|s| - 1]);
    }
    hide Trim;
    LowerFixed(t);
  }

  lemma LowerDigits(s: string)
    ensures AllDigits(Lower(s)) <==> AllDigits(s)
  {
    hide *;
    LowerAt(s);
    DigitsAt(s);
    DigitsAt(Lower(s));
  }

  lemma DigitsAt(s: string)
    ensures AllDigits(s) <==> forall i | 0 <= i < |s| :: IsDigit(s[i])
  {}

  lemma LowerAt(s: string)
    ensures |Lower(s)| == |s| && forall i | 0 <= i < |s| :: IsDigit(Lower(s)[i]) <==> IsDigit(s[i])
  {
    hide LowerChar, IsDigit;
  }

  lemma LowerFixed(t: string)
    requires forall i | 0 <= i < |t| :: !IsUpper(t[i])
    ensures Lower(t) == t
  {
    hide IsUpper, LowerChar;
  }

  lemma StripZerosDigits(s: string)
    requires AllDigits(s)
    ensures AllDigits(StripZeros(s)) && Trimmed(StripZeros(s)) && StripZeros(StripZeros(s)) == StripZeros(s)
  {
    var t := StripZeros(s);
    assert Leading<char>(t, '0') == 0;
    assert t[0..] == t;
  }

  lemma ZeroIsCanonical(chain: ChainId)
    ensures Canonical(chain, "0", true) == "0"
  {
    hide Trim, StripZeros;
    assert Trimmed("0") && AllDigits("0");
    StripZero();
  }

  lemma StripZero()
    ensures StripZeros("0") == []
  {
    var zero := "0";
    LeadingUnique<char>(zero, '0', 1);
  }

  lemma StrippedIsCanonical(chain: ChainId, s: string)
    requires AllDigits(s)
    ensures var t := StripZeros(s); t != [] ==> Canonical(chain, t, true) == t
  {
    StripZerosDigits(s);
  }

  lemma LowerIsCanonical(chain: ChainId, s: string, tokenId: bool)
    requires Trimmed(s) && (s == [] || !AllDigits(s) || !tokenId)
    ensures Canonical(chain, Lower(s), tokenId) == Lower(s)
  {
    LowerTrimmed(s);
  }

  /** Canonicalising twice is canonicalising once. */
  lemma CanonicalIdempotent(chain: ChainId, value: string, tokenId: bool)
    ensures Canonical(chain, Canonical(chain, value, tokenId), tokenId) == Canonical(chain, value, tokenId)
  {
    hide Trim, StripZeros, Lower, AllDigits, Trimmed;
    var trimmed := Trim(value);
    if chain.IsEvm() {
      if tokenId && trimmed != [] && AllDigits(trimmed) {
        StrippedIsCanonical(chain, trimmed);
        ZeroIsCanonical(chain);
      } else {
        LowerIsCanonical(chain, trimmed, tokenId);
      }
    }
  }

  // ----- decimal token ids -----

  function DigitValues(s: string): (r: seq<nat>)
    requires AllDigits(s)
    ensures |r| == |s| && Below(r, 10)
    ensures forall i | 0 <= i < |s| :: r[i] == s[i] as int - '0' as int
  {
    seq(|s|, i requires 0 <= i < |s| => s[i] as int - '0' as int)
  }

  /** The number a decimal token id writes. */
  function TokenNumber(s: string): nat
    requires AllDigits(s)
  {
    BigEndian(DigitValues(s), 10)
  }

  lemma {:induction false} LeadingZeros(s: string)
    requires AllDigits(s)
    ensures Leading<char>(s, '0') == Leading<nat>(DigitValues(s), 0)
  {
    LeadingUnique<nat>(DigitValues(s), 0, Leading<char>(s, '0'));
  }

  lemma DigitValuesInjective(s: string, t: string)
    requires AllDigits(s) && AllDigits(t) && DigitValues(s) == DigitValues(t)
    ensures s == t
  {
    assert |s| == |t|;
    forall i | 0 <= i < |s|
      ensures s[i] == t[i]
    {
      assert DigitValues(s)[i] == DigitValues(t)[i];
    }
  }

  lemma StrippedNumber(s: string)
    requires AllDigits(s)
    ensures AllDigits(StripZeros(s)) && DigitValues(StripZeros(s)) == Digits(TokenNumber(s), 10)
  {
    LeadingZeros(s);
    DigitsOfValue(DigitValues(s), 10);
    assert DigitValues(StripZeros(s)) == DigitValues(s)[Leading<nat>(DigitValues(s), 0)..];
  }

  /** Equal numbers have equal stripped spellings, and none of them starts with 0. */
  lemma StrippedAgree(s: string, t: string)
    requires AllDigits(s) && AllDigits(t)
    ensures StripZeros(s) == StripZeros(t) <==> TokenNumber(s) == TokenNumber(t)
    ensures StripZeros(s) != "0"
  {
    StrippedNumber(s);
    StrippedNumber(t);
    var a, b := StripZeros(s), StripZeros(t);
    assert a != [] ==> a[0] != '0';
    if DigitValues(a) == DigitValues(b) {
      DigitValuesInjective(a, b);
    }
    ValueOfDigits(TokenNumber(s), 10);
    ValueOfDigits(TokenNumber(t), 10);
  }

  /** Two decimal token ids are spelled alike exactly when they write the same number. */
  lemma TokenIdsAgree(chain: ChainId, s: string, t: string)
    requires chain.IsEvm() && s != [] && t != [] && AllDigits(s) && AllDigits(t)
    ensures Canonical(chain, s, true) == Canonical(chain, t, true) <==> TokenNumber(s) == TokenNumber(t)
  {
    hide StripZeros, TokenNumber, Trim;
    assert Trimmed(s) && Trimmed(t);
    StrippedAgree(s, t);
    StrippedAgree(t, s);
  }

  // ----- what a spelling keeps -----

  predicate AllWhite(s: string) { forall i | 0 <= i < |s| :: IsWhitespace(s[i]) }

  /** s is the core with white space around it. */
  ghost predicate Padded(core: string, s: string) {
    exists left, right :: AllWhite(left) && AllWhite(right) && s == left + core + right
  }

  /** The characters are the same up to the case of a letter A to Z. */
  predicate SameLetter(a: char, b: char) {
    || a == b
    || ('A' <= a <= 'Z' && b as int == a as int + 32)
    || ('A' <= b <= 'Z' && a as int == b as int + 32)
  }

  predicate SameLetters(s: string, t: string) {
    |s| == |t| && forall i | 0 <= i < |s| :: SameLetter(s[i], t[i])
  }

  /** The texts differ at most in surrounding white space and, on an EVM chain, in the
      case of letters. */
  ghost predicate SameSpelling(chain: ChainId, s: string, t: string) {
    exists c, d :: Padded(c, s) && Padded(d, t) && if chain.IsEvm() then SameLetters(c, d) else c == d
  }

  /** No white space at either end and, on an EVM chain, no capital letter. */
  predicate IsSpelled(chain: ChainId, s: string) {
    Trimmed(s) && (chain.IsEvm() ==> NoUpper(s))
  }

  lemma WhiteAppend(s: string, t: string)
    requires AllWhite(s) && AllWhite(t)
    ensures AllWhite(s + t)
  {
    hide IsWhitespace;
  }

  lemma {:induction false} DroppedIsWhite(s: string)
    ensures forall i | 0 <= i < |s| - |TrimStart(s)| :: IsWhitespace(s[i])
  {
    hide IsWhitespace;
    if s != [] && IsWhitespace(s[0]) {
      var rest := s[1..];
      DroppedIsWhite(rest);
      forall i | 0 <= i < |s| - |TrimStart(s)|
        ensures IsWhitespace(s[i])
      {
        if i > 0 {
          assert s[i] == rest[i - 1];
        }
      }
    }
  }

  lemma TrimStartIsPadding(s: string)
    ensures exists left :: AllWhite(left) && s == left + TrimStart(s)
  {
    DroppedIsWhite(s);
    hide IsWhitespace, TrimStart;
    var left := s[..|s| - |TrimStart(s)|];
    assert AllWhite(left) && s == left + TrimStart(s);
  }

  lemma {:induction false} TrimEndIsPadding(s: string)
    ensures exists right :: AllWhite(right) && s == TrimEnd(s) + right
  {
    hide IsWhitespace;
    if s != [] && IsWhitespace(s[|s| - 1]) {
      var init, tail := s[..|s| - 1], [s[|s| - 1]];
      TrimEndIsPadding(init);
      var right :| AllWhite(right) && init == TrimEnd(init) + right;
      WhiteAppend(right, tail);
      hide AllWhite;
      assert s == TrimEnd(s) + (right + tail);
    } else {
      assert AllWhite([]) && s == TrimEnd(s) + [];
    }
  }

  /** Trimming takes away white space around the text and nothing else. */
  lemma TrimIsPadding(s: string)
    ensures Padded(Trim(s), s) && Trimmed(Trim(s))
  {
    TrimStartIsPadding(s);
    TrimEndIsPadding(TrimStart(s));
    hide TrimStart, TrimEnd, Trimmed;
    var left :| AllWhite(left) && s == left + TrimStart(s);
    var right :| AllWhite(right) && TrimStart(s) == TrimEnd(TrimStart(s)) + right;
    assert s == left + Trim(s) + right;
  }

  /** Padding is what trimming does not see. */
  lemma {:induction false} TrimStartSkips(left: string, s: string)
    requires AllWhite(left)
    ensures TrimStart(left + s) == TrimStart(s)
  {
    if left == [] {
      assert left + s == s;
    } else {
      assert (left + s)[1..] == left[1..] + s;
      TrimStartSkips(left[1..], s);
    }
  }

  lemma {:induction false} TrimEndSkips(s: string, right: string)
    requires AllWhite(right)
    ensures TrimEnd(s + right) == TrimEnd(s)
  {
    if right == [] {
      assert s + right == s;
    } else {
      var all := s + right;
      assert all[..|all| - 1] == s + right[..|right| - 1];
      TrimEndSkips(s, right[..|right| - 1]);
    }
  }

  lemma {:induction false} TrimOfWhite(s: string)
    requires AllWhite(s)
    ensures TrimStart(s) == [] && TrimEnd(s) == []
  {
    if s != [] {
      TrimOfWhite(s[1..]);
      TrimOfWhite(s[..|s| - 1]);
    }
  }

  /** The first character that is not white space stays first whatever follows. */
  lemma {:induction false} TrimStartAppend(s: string, right: string)
    requires !AllWhite(s)
    ensures TrimStart(s + right) == TrimStart(s) + right
  {
    if IsWhitespace(s[0]) {
      assert (s + right)[1..] == s[1..] + right;
      assert !AllWhite(s[1..]) by {
        var i :| 0 <= i < |s| && !IsWhitespace(s[i]);
        assert !IsWhitespace(s[1..][i - 1]);
      }
      TrimStartAppend(s[1..], right);
    }
  }

  lemma TrimOfPadded(core: string, s: string)
    requires Padded(core, s)
    ensures Trim(s) == Trim(core)
  {
    var left, right :| AllWhite(left) && AllWhite(right) && s == left + core + right;
    assert s == left + (core + right);
    TrimStartSkips(left, core + right);
    if AllWhite(core) {
      assert AllWhite(core + right);
      TrimOfWhite(core);
      TrimOfWhite(core + right);
    } else {
      TrimStartAppend(core, right);
      TrimEndSkips(TrimStart(core), right);
    }
  }

  lemma SameLettersAgree(s: string, t: string)
    ensures SameLetters(s, t) <==> Lower(s) == Lower(t)
  {
    assert forall a: char, b: char :: SameLetter(a, b) <==> LowerChar(a) == LowerChar(b) by {
      forall a: char, b: char
        ensures SameLetter(a, b) <==> LowerChar(a) == LowerChar(b)
      {
        SameLetterAgree(a, b);
      }
    }
    hide SameLetter, LowerChar;
    if Lower(s) == Lower(t) {
      assert |s| == |t|;
      forall i | 0 <= i < |s|
        ensures SameLetter(s[i], t[i])
      {
        assert Lower(s)[i] == Lower(t)[i];
      }
    }
  }

  lemma SameLetterAgree(a: char, b: char)
    ensures SameLetter(a, b) <==> LowerChar(a) == LowerChar(b)
  {
  }

  lemma SameLetterWhite(a: char, b: char)
    requires SameLetter(a, b)
    ensures IsWhitespace(a) <==> IsWhitespace(b)
  {
  }

  /** Trimming both sides keeps them the same up to case. */
  lemma {:induction false} SameLettersTrimStart(s: string, t: string)
    requires SameLetters(s, t)
    ensures SameLetters(TrimStart(s), TrimStart(t))
  {
    hide IsWhitespace, SameLetter;
    if s != [] {
      assert SameLetter(s[0], t[0]);
      SameLetterWhite(s[0], t[0]);
      SameLettersTrimStart(s[1..], t[1..]);
    }
  }

  lemma {:induction false} SameLettersTrimEnd(s: string, t: string)
    requires SameLetters(s, t)
    ensures SameLetters(TrimEnd(s), TrimEnd(t))
  {
    hide IsWhitespace, SameLetter;
    if s != [] {
      assert SameLetter(s[|s| - 1], t[|t| - 1]);
      SameLetterWhite(s[|s| - 1], t[|t| - 1]);
      SameLettersTrimEnd(s[..|s| - 1], t[..|t| - 1]);
    }
  }

  /** The canonical spelling by the text between the white space. */
  lemma CanonicalByTrim(chain: ChainId, s: string, t: string)
    ensures Canonical(chain, s, false) == Canonical(chain, t, false)
            <==> if chain.IsEvm() then SameLetters(Trim(s), Trim(t)) else Trim(s) == Trim(t)
  {
    SameLettersAgree(Trim(s), Trim(t));
    hide Trim, Lower, SameLetters;
  }

  /** What is the same but for case is so after trimming. */
  lemma TrimmedAlike(s: string, t: string)
    requires SameLetters(s, t)
    ensures SameLetters(Trim(s), Trim(t))
  {
    SameLettersTrimStart(s, t);
    SameLettersTrimEnd(TrimStart(s), TrimStart(t));
  }

  /** Addresses and transaction ids are spelled alike exactly when they differ at most in
      surrounding white space and, on an EVM chain, in case. */
  lemma SpelledAlike(chain: ChainId, s: string, t: string)
    ensures Canonical(chain, s, false) == Canonical(chain, t, false) <==> SameSpelling(chain, s, t)
  {
    hide Padded, SameLetters, Trimmed, Trim, Canonical;
    TrimIsPadding(s);
    TrimIsPadding(t);
    CanonicalByTrim(chain, s, t);
    if SameSpelling(chain, s, t) {
      var c, d :| Padded(c, s) && Padded(d, t) && if chain.IsEvm() then SameLetters(c, d) else c == d;
      TrimOfPadded(c, s);
      TrimOfPadded(d, t);
      if chain.IsEvm() {
        TrimmedAlike(c, d);
      }
    }
  }

  lemma CanonicalIsSpelled(chain: ChainId, s: string)
    ensures IsSpelled(chain, Canonical(chain, s, false))
  {
    hide Trim;
    if chain.IsEvm() {
      LowerTrimmed(Trim(s));
    }
  }

  /** The token ids are spelled the same, or write the same decimal number. */
  ghost predicate SameToken(chain: ChainId, s: string, t: string) {
    || SameSpelling(chain, s, t)
    || exists c, d :: && chain.IsEvm() && Padded(c, s) && Padded(d, t) && c != [] && d != []
                      && AllDigits(c) && AllDigits(d) && TokenNumber(c) == TokenNumber(d)
  }

  lemma DigitsAreTrimmed(s: string)
    requires AllDigits(s)
    ensures Trimmed(s)
  {
  }

  lemma SameLettersDigits(s: string, t: string)
    requires SameLetters(s, t) && AllDigits(s)
    ensures s == t
  {
    forall i | 0 <= i < |s|
      ensures s[i] == t[i]
    {
      assert SameLetter(s[i], t[i]) && IsDigit(s[i]);
    }
  }

  /** Texts that are the same up to case are both decimal or neither is, and decimal ones
      are the same. */
  lemma SameLettersTokens(s: string, t: string)
    requires SameLetters(s, t)
    ensures AllDigits(s) || AllDigits(t) ==> s == t
  {
    if AllDigits(s) {
      SameLettersDigits(s, t);
    } else if AllDigits(t) {
      SameLettersDigits(t, s);
    }
  }

  lemma SpelledAlikeTokens(chain: ChainId, s: string, t: string)
    requires SameSpelling(chain, s, t)
    ensures Canonical(chain, s, true) == Canonical(chain, t, true)
  {
    SpelledAlike(chain, s, t);
    SameLettersAgree(Trim(s), Trim(t));
    hide Trim, Lower, StripZeros, AllDigits, SameLetters;
    if chain.IsEvm() {
      SameLettersTokens(Trim(s), Trim(t));
      LowerEmpty(Trim(s), Trim(t));
    }
  }

  lemma LowerEmpty(s: string, t: string)
    requires Lower(s) == Lower(t)
    ensures s == [] <==> t == []
  {
    assert |Lower(s)| == |Lower(t)|;
  }

  lemma PaddedDigitsTrim(c: string, s: string)
    requires Padded(c, s) && AllDigits(c)
    ensures Trim(s) == c && Trim(c) == c
  {
    DigitsAreTrimmed(c);
    TrimOfPadded(c, s);
  }

  lemma CanonicalOfTrim(chain: ChainId, c: string, s: string)
    requires Trim(s) == c && Trim(c) == c
    ensures Canonical(chain, s, true) == Canonical(chain, c, true)
  {
    hide Trim, StripZeros, Lower, AllDigits;
  }

  /** Token ids that are the same to a reader are spelled alike. */
  lemma SameTokensAlike(chain: ChainId, s: string, t: string)
    requires SameToken(chain, s, t)
    ensures Canonical(chain, s, true) == Canonical(chain, t, true)
  {
    hide SameSpelling, Padded, AllDigits, TokenNumber, Canonical;
    if SameSpelling(chain, s, t) {
      SpelledAlikeTokens(chain, s, t);
    } else {
      var c, d :| && chain.IsEvm() && Padded(c, s) && Padded(d, t) && c != [] && d != []
                  && AllDigits(c) && AllDigits(d) && TokenNumber(c) == TokenNumber(d);
      PaddedDigitsTrim(c, s);
      PaddedDigitsTrim(d, t);
      TokenIdsAgree(chain, c, d);
      CanonicalOfTrim(chain, c, s);
      CanonicalOfTrim(chain, d, t);
    }
  }

  /** A canonical text differs from the original only in what does not matter. */
  lemma CanonicalIsSame(chain: ChainId, s: string)
    ensures SameSpelling(chain, s, Canonical(chain, s, false))
  {
    CanonicalIdempotent(chain, s, false);
    SpelledAlike(chain, s, Canonical(chain, s, false));
  }

  /** A decimal token id of an EVM chain has no zero in front. */
  predicate IsSpelledToken(chain: ChainId, s: string) {
    IsSpelled(chain, s) && (chain.IsEvm() && s != [] && AllDigits(s) && s[0] == '0' ==> s == "0")
  }

  lemma StrippedIsSpelled(s: string)
    requires AllDigits(s)
    ensures var t := StripZeros(s); AllDigits(t) && Trimmed(t) && NoUpper(t) && (t != [] ==> t[0] != '0')
  {
    StripZerosDigits(s);
  }

  /** The text between the white space is a decimal token id. */
  predicate IsDecimal(chain: ChainId, s: string) { chain.IsEvm() && Trim(s) != [] && AllDigits(Trim(s)) }

  lemma DecimalCanonical(chain: ChainId, s: string)
    requires IsDecimal(chain, s)
    ensures var d := Canonical(chain, s, true); d != [] && AllDigits(d) && (d[0] == '0' ==> d == "0")
  {
    StrippedIsSpelled(Trim(s));
    hide Trim, StripZeros;
  }

  lemma OtherCanonical(chain: ChainId, s: string)
    requires !IsDecimal(chain, s)
    ensures Canonical(chain, s, true) == Canonical(chain, s, false)
  {
    hide Trim, StripZeros, Lower, AllDigits;
  }

  lemma OtherIsNotDecimal(chain: ChainId, s: string)
    requires !IsDecimal(chain, s) && chain.IsEvm()
    ensures var d := Canonical(chain, s, false); d == [] || !AllDigits(d)
  {
    LowerTrimmed(Trim(s));
    hide Trim, Lower, AllDigits, StripZeros;
    assert Canonical(chain, s, false) == Lower(Trim(s));
    LowerNothing(Trim(s));
  }

  lemma LowerNothing(s: string)
    ensures s == [] ==> Lower(s) == []
  {
    assert |Lower(s)| == |s|;
  }

  lemma DigitsAreSpelled(chain: ChainId, d: string)
    requires AllDigits(d)
    ensures IsSpelled(chain, d)
  {
    DigitsAreTrimmed(d);
  }

  lemma CanonicalTokenIsSpelled(chain: ChainId, s: string)
    ensures IsSpelledToken(chain, Canonical(chain, s, true))
  {
    hide Canonical, IsDecimal, IsSpelled, AllDigits;
    if IsDecimal(chain, s) {
      DecimalCanonical(chain, s);
      DigitsAreSpelled(chain, Canonical(chain, s, true));
    } else {
      OtherCanonical(chain, s);
      CanonicalIsSpelled(chain, s);
      if chain.IsEvm() {
        OtherIsNotDecimal(chain, s);
      }
    }
  }

  lemma CanonicalTokenIsSame(chain: ChainId, s: string)
    ensures SameToken(chain, s, Canonical(chain, s, true))
  {
    hide Canonical, Trimmed, SameSpelling, TokenNumber;
    if IsDecimal(chain, s) {
      var c, d := Trim(s), Canonical(chain, s, true);
      hide Trim, AllDigits, Padded;
      DecimalCanonical(chain, s);
      TrimIsPadding(s);
      DigitsArePadded(d);
      CanonicalIdempotent(chain, s, true);
      TrimTwice(s);
      CanonicalOfTrim(chain, c, s);
      TokenIdsAgree(chain, c, d);
    } else {
      OtherCanonical(chain, s);
      CanonicalIsSame(chain, s);
    }
  }

  lemma TrimTwice(s: string)
    ensures Trim(Trim(s)) == Trim(s)
  {
    hide TrimStart, TrimEnd;
  }

  lemma DigitsArePadded(d: string)
    requires AllDigits(d)
    ensures Padded(d, d)
  {
    assert AllWhite([]) && d == [] + d + [];
  }
}
