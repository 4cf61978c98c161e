/**
 * What the number readers under the integer flags take for a number (src/str.cc:224-322): the numerals of
 * strtoll with base 0, character by character, and the unit letters.
 */
module FlagNumber {
  import opened Common
  import opened FlagInt

  /** The blanks of isspace: space, and the five characters from tab to carriage return. */
  predicate IsBlank(c: char) {
    c in [32 as char, 9 as char, 10 as char, 11 as char, 12 as char, 13 as char]
  }

  /** The number with these digits. */
  function Positional(ds: seq<nat>, base: nat): nat {
    if ds == [] then 0 else Positional(ds[..|ds| - 1], base) * base + ds[|ds| - 1]
  }

  /** Blanks up to i, a sign up to j. */
  predicate SignedFrom(s: string, i: nat, j: nat) {
    && i <= j <= |s| && (forall k :: 0 <= k < i ==> IsBlank(s[k])) && (i < |s| ==> !IsBlank(s[i]))
    && (if i < |s| && s[i] in "+-" then j == i + 1 else j == i)
  }

  predicate HasDigit(s: string, k: nat, base: nat) {
    k < |s| && exists x: nat :: x < base && IsHex(s[k], x)
  }

  predicate HexPrefix(s: string, j: nat) {
    j + 1 < |s| && s[j] == '0' && s[j + 1] in "xX" && HasDigit(s, j + 2, 16)
  }

  /** The base of the numeral at j and where its digits start: 0x for 16, 0 for 8. */
  predicate DigitsFrom(s: string, j: nat, b: nat, base: nat) {
    if HexPrefix(s, j) then base == 16 && b == j + 2
    else b == j && base == if j < |s| && s[j] == '0' then 8 else 10
  }

  lemma HexDigitIs(c: char)
    ensures forall x: nat :: x < 16 ==> (IsHex(c, x) <==> HexDigit(c) == x)
    ensures HexDigit(c) < 16 ==> IsHex(c, HexDigit(c))
  {
  }

  lemma HasDigitIs(s: string, k: nat, base: nat)
    requires base <= 16
    ensures HasDigit(s, k, base) <==> k < |s| && HexDigit(s[k]) < base
  {
    if k < |s| {
      HexDigitIs(s[k]);
    }
  }

  lemma {:induction false} SpacesSkipped(s: string, i: nat, k: nat)
    requires k <= i <= |s| && (forall l :: k <= l < i ==> IsBlank(s[l])) && (i < |s| ==> !IsBlank(s[i]))
    ensures SkipSpaces(s, k) == i
    decreases i - k
  {
    if k < i {
      assert IsBlank(s[k]) && IsSpace(s[k]);
      SpacesSkipped(s, i, k + 1);
    }
  }

  lemma {:induction false} DigitsHaveValue(t: string, ds: seq<nat>, base: nat)
    requires base <= 16 && |t| == |ds| && forall k :: 0 <= k < |ds| ==> IsHex(t[k], ds[k])
    ensures DigitsValue(t, base) == Positional(ds, base)
    decreases |t|
  {
    hide IsHex, HexDigit;
    if t != "" {
      var n := |t| - 1;
      DigitsHaveValue(t[..n], ds[..n], base);
      assert IsHex(t[n], ds[n]);
      HexDigitIs(t[n]);
      assert ds[n] < 16 by { SmallHex(t[n], ds[n]); }
    }
  }

  lemma SmallHex(c: char, x: nat)
    requires IsHex(c, x)
    ensures x < 16
  {
  }

  /** Where the scan of both functions starts to read digits. */
  lemma ScanFrom(s: string, i: nat, j: nat, b: nat, base: nat)
    requires SignedFrom(s, i, j) && DigitsFrom(s, j, b, base)
    ensures b <= |s| && base <= 16
    ensures var e := DigitsEnd(s, b, base);
            Scan(s) == if e == b then Scanned(false, 0, 0) else Scanned(i < |s| && s[i] == '-', DigitsValue(s[b..e], base), e)
  {
    hide HexDigit, DigitsEnd, DigitsValue, IsBlank;
    SpacesSkipped(s, i, 0);
    HasDigitIs(s, j + 2, 16);
  }

  /** Blanks, a sign, a prefix and digits are read as the number they stand for, up to the first character
      that is no digit. */
  lemma NumeralIsRead(s: string, i: nat, j: nat, b: nat, e: nat, base: nat, ds: seq<nat>)
    requires SignedFrom(s, i, j) && DigitsFrom(s, j, b, base)
    requires b < e <= |s| && |ds| == e - b && forall k :: 0 <= k < |ds| ==> IsHex(s[b + k], ds[k]) && ds[k] < base
    requires !HasDigit(s, e, base)
    ensures Scan(s) == Scanned(s[i] == '-', Positional(ds, base), e)
  {
    hide HexDigit, DigitsEnd, DigitsValue, Scan, IsHex, SignedFrom, DigitsFrom, HasDigit;
    ScanFrom(s, i, j, b, base);
    BeforeDigits(s, i, j, b, base);
    HasDigitIs(s, e, base);
    forall k | b <= k < e ensures HexDigit(s[k]) < base {
      assert IsHex(s[b + (k - b)], ds[k - b]);
      HexDigitIs(s[k]);
      SmallHex(s[k], ds[k - b]);
    }
    DigitsEndAt(s, b, e, base);
    forall k | 0 <= k < |ds| ensures IsHex(s[b..e][k], ds[k]) {
      assert s[b..e][k] == s[b + k];
    }
    DigitsHaveValue(s[b..e], ds, base);
  }

  lemma BeforeDigits(s: string, i: nat, j: nat, b: nat, base: nat)
    requires SignedFrom(s, i, j) && DigitsFrom(s, j, b, base)
    ensures i <= b
  {
  }

  /** Without a digit nothing is read. */
  lemma NoNumeral(s: string, i: nat, j: nat, b: nat, base: nat)
    requires SignedFrom(s, i, j) && DigitsFrom(s, j, b, base) && !HasDigit(s, b, base)
    ensures Scan(s) == Scanned(false, 0, 0)
  {
    hide HexDigit, DigitsValue, Scan, SignedFrom, DigitsFrom, HasDigit;
    ScanFrom(s, i, j, b, base);
    HasDigitIs(s, b, base);
    DigitsEndAt(s, b, b, base);
  }

  /** The unit letters of either case stand for the powers of 1024, and no other character is one. */
  lemma UnitLetters(c: char)
    ensures forall i :: 0 <= i < 5 && (c == "kmgtp"[i] || c == "KMGTP"[i]) ==> Shift(c) != 0 && Unit(Shift(c)) == Pow1024(i + 1)
    ensures c !in "kmgtpKMGTP" ==> Shift(c) == 0
  {
    forall i: nat | 1 <= i <= 5 ensures Shift(UNITS[i - 1]) == 10 * i && Unit(10 * i) == Pow1024(i) {
      UnitOfIndex(i);
    }
  }
}
