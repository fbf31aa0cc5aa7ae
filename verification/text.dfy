/**
 * The string operations the controllers apply: JavaScript's `length`,
 * `toLowerCase`, `trim`, the regular-expression replacements used to build usernames,
 * `Number.prototype.toString()` on non-negative integers, Node's
 * `Buffer.toString("hex")`, `String.prototype.split(" ")` and `startsWith`.
 * Case mapping is modelled on ASCII letters only.
 */
module Text {
  import opened Base

  predicate IsDigit(c: char) { '0' <= c <= '9' }
  predicate IsAsciiLower(c: char) { 'a' <= c <= 'z' }
  predicate IsAsciiUpper(c: char) { 'A' <= c <= 'Z' }

  /** The character class `[a-zA-Z0-9]`. */
  predicate IsAsciiAlnum(c: char) { IsDigit(c) || IsAsciiLower(c) || IsAsciiUpper(c) }

  /** The character class `[a-z0-9]`. */
  predicate IsLowerAlnum(c: char) { IsDigit(c) || IsAsciiLower(c) }

  /** A digit of Node's lower-case hex encoding. */
  predicate IsLowerHex(c: char) { IsDigit(c) || 'a' <= c <= 'f' }

  /** ECMAScript WhiteSpace and LineTerminator code points: what `\s` matches and `trim` removes. */
  predicate IsJsSpace(c: char) {
    || c == '\t' || c == '\n' || c == '\U{000B}' || c == '\U{000C}' || c == '\r' || c == ' '
    || c == '\U{00A0}' || c == '\U{1680}' || ('\U{2000}' <= c <= '\U{200A}')
    || c == '\U{2028}' || c == '\U{2029}' || c == '\U{202F}' || c == '\U{205F}'
    || c == '\U{3000}' || c == '\U{FEFF}'
  }

  // ---------------------------------------------------------------------------
  // Lower-casing

  function LowerChar(c: char): (d: char)
    ensures !IsAsciiUpper(d)
    ensures IsJsSpace(d) <==> IsJsSpace(c)
  {
    if IsAsciiUpper(c) then (c as int + 32) as char else c
  }

  /** `s.toLowerCase()`, on ASCII letters. */
  function Lower(s: string): (r: string)
    ensures |r| == |s|
    ensures forall i :: 0 <= i < |s| ==> r[i] == LowerChar(s[i])
  {
    seq(|s|, i requires 0 <= i < |s| => LowerChar(s[i]))
  }

  predicate HasNoUpper(s: string) {
    forall i :: 0 <= i < |s| ==> !IsAsciiUpper(s[i])
  }

  lemma LowerFixesLowered(s: string)
    requires HasNoUpper(s)
    ensures Lower(s) == s
  {
  }

  // ---------------------------------------------------------------------------
  // Trimming

  /** The index of the first character at or after `i` that is not JavaScript white space, or `|s|`. */
  function SkipSpace(s: string, i: nat): (n: nat)
    requires i <= |s|
    ensures i <= n <= |s|
    ensures n < |s| ==> !IsJsSpace(s[n])
    ensures forall j :: i <= j < n ==> IsJsSpace(s[j])
    decreases |s| - i
  {
    if i < |s| && IsJsSpace(s[i]) then SkipSpace(s, i + 1) else i
  }

  /** The index just past the last character before `e` that is not JavaScript white space, or 0. */
  function BackSpace(s: string, e: nat): (n: nat)
    requires e <= |s|
    ensures n <= e
    ensures n > 0 ==> !IsJsSpace(s[n - 1])
    ensures forall j :: n <= j < e ==> IsJsSpace(s[j])
  {
    if e > 0 && IsJsSpace(s[e - 1]) then BackSpace(s, e - 1) else e
  }

  /** `s.trim()`: drop the leading white space, then the trailing white space. */
  function Trim(s: string): (r: string)
  {
    var t := s[SkipSpace(s, 0)..];
    t[..BackSpace(t, |t|)]
  }

  /** `trim` yields the slice of its input that starts after the leading white space, with no white space at either end. */
  lemma TrimIsBareSlice(s: string)
    ensures var k := SkipSpace(s, 0); var r := Trim(s);
      && k + |r| <= |s| && r == s[k..k + |r|]
      && (|r| > 0 ==> !IsJsSpace(r[0]) && !IsJsSpace(r[|r| - 1]))
  {
    var k := SkipSpace(s, 0);
    var t := s[k..];
    var e := BackSpace(t, |t|);
    assert Trim(s) == t[..e];
    if e > 0 {
      assert t[0] == s[k];
    }
  }

  /** Trimming an already trimmed string changes nothing. */
  lemma TrimIdempotent(s: string)
    ensures Trim(Trim(s)) == Trim(s)
  {
    var r := Trim(s);
    TrimIsBareSlice(s);
    assert SkipSpace(r, 0) == 0;
    assert r[0..] == r;
    assert BackSpace(r, |r|) == |r|;
  }

  /** A string without white space is its own trim. */
  lemma TrimFixesSpaceless(s: string)
    requires forall i :: 0 <= i < |s| ==> !IsJsSpace(s[i])
    ensures Trim(s) == s
  {
    assert SkipSpace(s, 0) == 0;
    assert s[0..] == s;
    assert BackSpace(s, |s|) == |s|;
  }

  // ---------------------------------------------------------------------------
  // Length

  /** A character outside the Basic Multilingual Plane, which UTF-16 stores as a surrogate pair. */
  predicate IsAstral(c: char) { c as int >= 0x10000 }

  /**
   * JavaScript's `s.length`, the measure `maxlength` validators use: UTF-16
   * code units, so two for every astral character.
   */
  function Utf16Length(s: string): (n: nat)
    ensures |s| <= n <= 2 * |s|
  {
    if |s| == 0 then 0 else (if IsAstral(s[0]) then 2 else 1) + Utf16Length(s[1..])
  }

  /** Without astral characters the UTF-16 length is the number of characters. */
  lemma {:induction false} Utf16LengthOfBmp(s: string)
    requires forall i :: 0 <= i < |s| ==> !IsAstral(s[i])
    ensures Utf16Length(s) == |s|
  {
    if |s| > 0 {
      Utf16LengthOfBmp(s[1..]);
    }
  }

  /** Every astral character adds one code unit beyond the character count. */
  lemma {:induction false} Utf16LengthOfAstral(s: string)
    requires forall i :: 0 <= i < |s| ==> IsAstral(s[i])
    ensures Utf16Length(s) == 2 * |s|
  {
    if |s| > 0 {
      Utf16LengthOfAstral(s[1..]);
    }
  }

  // ---------------------------------------------------------------------------
  // Regular-expression deletions

  /** `s.replace(/[^a-zA-Z0-9]/g, "")`. */
  function KeepAsciiAlnum(s: string): (r: string)
    ensures |r| <= |s|
    ensures forall i :: 0 <= i < |r| ==> IsAsciiAlnum(r[i])
    ensures forall c :: c in r <==> c in s && IsAsciiAlnum(c)
  {
    if |s| == 0 then ""
    else
      assert s == [s[0]] + s[1..];
      (if IsAsciiAlnum(s[0]) then [s[0]] else "") + KeepAsciiAlnum(s[1..])
  }

  /** The deletion works character by character, so it distributes over concatenation. */
  lemma {:induction false} KeepAsciiAlnumAppend(a: string, b: string)
    ensures KeepAsciiAlnum(a + b) == KeepAsciiAlnum(a) + KeepAsciiAlnum(b)
  {
    if |a| > 0 {
      assert (a + b)[1..] == a[1..] + b;
      KeepAsciiAlnumAppend(a[1..], b);
    } else {
      assert a + b == b;
    }
  }

  /** `s.replace(/\s+/g, "")`: every run of white space is deleted. */
  function RemoveJsSpaces(s: string): (r: string)
    ensures |r| <= |s|
    ensures forall i :: 0 <= i < |r| ==> !IsJsSpace(r[i])
    ensures forall c :: c in r <==> c in s && !IsJsSpace(c)
  {
    if |s| == 0 then ""
    else
      assert s == [s[0]] + s[1..];
      (if IsJsSpace(s[0]) then "" else [s[0]]) + RemoveJsSpaces(s[1..])
  }

  /** The deletion works character by character, so it distributes over concatenation. */
  lemma {:induction false} RemoveJsSpacesAppend(a: string, b: string)
    ensures RemoveJsSpaces(a + b) == RemoveJsSpaces(a) + RemoveJsSpaces(b)
  {
    if |a| > 0 {
      assert (a + b)[1..] == a[1..] + b;
      RemoveJsSpacesAppend(a[1..], b);
    } else {
      assert a + b == b;
    }
  }

  lemma {:induction false} RemoveJsSpacesKeepsNoUpper(s: string)
    requires HasNoUpper(s)
    ensures HasNoUpper(RemoveJsSpaces(s))
  {
    if |s| > 0 {
      RemoveJsSpacesKeepsNoUpper(s[1..]);
    }
  }

  lemma {:induction false} KeepAsciiAlnumKeepsNoUpper(s: string)
    requires HasNoUpper(s)
    ensures HasNoUpper(KeepAsciiAlnum(s))
  {
    if |s| > 0 {
      KeepAsciiAlnumKeepsNoUpper(s[1..]);
    }
  }

  /** A string without white space passes through the deletion unchanged. */
  lemma {:induction false} RemoveJsSpacesFixesSpaceless(s: string)
    requires forall i :: 0 <= i < |s| ==> !IsJsSpace(s[i])
    ensures RemoveJsSpaces(s) == s
  {
    if |s| > 0 {
      RemoveJsSpacesFixesSpaceless(s[1..]);
    }
  }

  /** `"a b".replace(/\s+/g, "")` is `"ab"` for space-free words. */
  lemma {:induction false} RemoveJsSpacesOfWords(first: string, last: string)
    requires forall i :: 0 <= i < |first| ==> !IsJsSpace(first[i])
    requires forall i :: 0 <= i < |last| ==> !IsJsSpace(last[i])
    ensures RemoveJsSpaces(first + " " + last) == first + last
  {
    var space := RemoveJsSpaces(" ");
    assert space == "" by {
      assert " "[1..] == "";
    }
    var head := first + " ";
    RemoveJsSpacesAppend(first, " ");
    RemoveJsSpacesFixesSpaceless(first);
    assert RemoveJsSpaces(head) == first + space;
    assert first + space == first;
    RemoveJsSpacesAppend(head, last);
    RemoveJsSpacesFixesSpaceless(last);
    assert RemoveJsSpaces(head + last) == first + last;
  }

  lemma {:induction false} KeepAsciiAlnumFixesAlnum(s: string)
    requires forall i :: 0 <= i < |s| ==> IsAsciiAlnum(s[i])
    ensures KeepAsciiAlnum(s) == s
  {
    if |s| > 0 {
      KeepAsciiAlnumFixesAlnum(s[1..]);
    }
  }

  // ---------------------------------------------------------------------------
  // Decimal numerals

  function DigitChar(d: nat): (c: char)
    requires d < 10
    ensures IsDigit(c)
  {
    ('0' as int + d) as char
  }

  function DigitValue(c: char): (d: nat)
    requires IsDigit(c)
    ensures d < 10
    ensures DigitChar(d) == c
  {
    c as int - '0' as int
  }

  /** `String(n)` for a non-negative integer: the shortest decimal numeral. */
  function Decimal(n: nat): (r: string)
    ensures |r| >= 1
    ensures forall i :: 0 <= i < |r| ==> IsDigit(r[i])
    ensures |r| > 1 <==> n >= 10
    ensures r[0] == '0' <==> n == 0
    decreases n
  {
    if n < 10 then [DigitChar(n)] else Decimal(n / 10) + [DigitChar(n % 10)]
  }

  /** The value a string of decimal digits denotes. */
  function ParseDecimal(s: string): nat
    requires forall i :: 0 <= i < |s| ==> IsDigit(s[i])
  {
    if |s| == 0 then 0 else ParseDecimal(s[..|s| - 1]) * 10 + DigitValue(s[|s| - 1])
  }

  /** Reading back the numeral of `n` gives `n`. */
  lemma {:induction false} ParseDecimalOfDecimal(n: nat)
    ensures ParseDecimal(Decimal(n)) == n
  {
    if n >= 10 {
      var r := Decimal(n);
      assert r[..|r| - 1] == Decimal(n / 10);
      ParseDecimalOfDecimal(n / 10);
    }
  }

  function Pow10(k: nat): nat
  {
    if k == 0 then 1 else 10 * Pow10(k - 1)
  }

  /** The powers of ten that bound six-digit numbers. */
  lemma SixDigitBounds()
    ensures Pow10(5) == 100000 && Pow10(6) == 1000000
  {
    assert Pow10(2) == 100;
    assert Pow10(4) == 10000;
  }

  /** A number with `k` significant digits is written with exactly `k` characters. */
  lemma {:induction false} DecimalLength(n: nat, k: nat)
    requires 1 <= k
    requires Pow10(k - 1) <= n < Pow10(k)
    ensures |Decimal(n)| == k
  {
    if k > 1 {
      assert Pow10(k - 1) == 10 * Pow10(k - 2);
      assert Pow10(k - 2) <= n / 10 < Pow10(k - 1);
      DecimalLength(n / 10, k - 1);
    }
  }

  /** A number below `10^k` takes at most `k` characters. */
  lemma {:induction false} DecimalAtMost(n: nat, k: nat)
    requires 1 <= k && n < Pow10(k)
    ensures |Decimal(n)| <= k
  {
    if n >= 10 {
      assert k > 1 && Pow10(k) == 10 * Pow10(k - 1);
      DecimalAtMost(n / 10, k - 1);
    }
  }

  // ---------------------------------------------------------------------------
  // Hex encoding of random bytes

  type Byte = b: int | 0 <= b < 256

  function HexDigit(d: nat): (c: char)
    requires d < 16
    ensures IsLowerHex(c)
  {
    if d < 10 then DigitChar(d) else ('a' as int + d - 10) as char
  }

  function HexValue(c: char): (d: nat)
    requires IsLowerHex(c)
    ensures d < 16
    ensures HexDigit(d) == c
  {
    if IsDigit(c) then DigitValue(c) else c as int - 'a' as int + 10
  }

  /** `buffer.toString("hex")`: two lower-case hex digits per byte, high nibble first. */
  function Hex(bs: seq<Byte>): (r: string)
    ensures |r| == 2 * |bs|
    ensures forall i :: 0 <= i < |r| ==> IsLowerHex(r[i])
  {
    if |bs| == 0 then "" else [HexDigit(bs[0] / 16), HexDigit(bs[0] % 16)] + Hex(bs[1..])
  }

  /** The bytes an even-length string of lower-case hex digits denotes. */
  function Unhex(s: string): seq<Byte>
    requires |s| % 2 == 0
    requires forall i :: 0 <= i < |s| ==> IsLowerHex(s[i])
  {
    if |s| == 0 then [] else [HexValue(s[0]) * 16 + HexValue(s[1])] + Unhex(s[2..])
  }

  /** Decoding the hex text of some bytes gives the bytes back. */
  lemma {:induction false} UnhexOfHex(bs: seq<Byte>)
    ensures Unhex(Hex(bs)) == bs
  {
    if |bs| > 0 {
      var r := Hex(bs);
      assert r[2..] == Hex(bs[1..]);
      assert HexValue(r[0]) == bs[0] / 16 && HexValue(r[1]) == bs[0] % 16 by {
        assert HexDigit(HexValue(r[0])) == r[0] == HexDigit(bs[0] / 16);
        assert HexDigit(HexValue(r[1])) == r[1] == HexDigit(bs[0] % 16);
      }
      UnhexOfHex(bs[1..]);
    }
  }

  // ---------------------------------------------------------------------------
  // split(" ") and startsWith

  /** `s.split(" ")`: the fields between single spaces; an empty field for each extra space. */
  function Split(s: string): (r: seq<string>)
    ensures |r| >= 1
    ensures forall k :: 0 <= k < |r| ==> ' ' !in r[k]
    decreases |s|
  {
    if |s| == 0 then [""]
    else if s[0] == ' ' then [""] + Split(s[1..])
    else
      var rest := Split(s[1..]);
      [[s[0]] + rest[0]] + rest[1..]
  }

  /** `fields.join(" ")`. */
  function Join(fields: seq<string>): string
    requires |fields| >= 1
  {
    if |fields| == 1 then fields[0] else fields[0] + " " + Join(fields[1..])
  }

  /** Joining the fields of a split restores the string. */
  lemma {:induction false} JoinOfSplit(s: string)
    ensures Join(Split(s)) == s
    decreases |s|
  {
    if |s| > 0 {
      JoinOfSplit(s[1..]);
      var rest := Split(s[1..]);
      if s[0] == ' ' {
        assert Split(s)[1..] == rest;
      } else {
        var r := Split(s);
        assert r[1..] == rest[1..];
        if |rest| == 1 {
          assert Join(r) == [s[0]] + rest[0];
        } else {
          assert Join(r) == [s[0]] + rest[0] + " " + Join(rest[1..]);
        }
        assert s == [s[0]] + s[1..];
      }
    }
  }

  /** A string with no space is a single field. */
  lemma {:induction false} SplitWithoutSpace(a: string)
    requires ' ' !in a
    ensures Split(a) == [a]
    decreases |a|
  {
    if |a| > 0 {
      SplitWithoutSpace(a[1..]);
      assert a == [a[0]] + a[1..];
    }
  }

  /** The first space ends the first field. */
  lemma {:induction false} SplitAtFirstSpace(a: string, b: string)
    requires ' ' !in a
    ensures Split(a + " " + b) == [a] + Split(b)
    decreases |a|
  {
    var s := a + " " + b;
    if |a| == 0 {
      assert s[1..] == b;
    } else {
      assert s[1..] == a[1..] + " " + b;
      SplitAtFirstSpace(a[1..], b);
      assert a == [a[0]] + a[1..];
    }
  }

  /** Splitting the join of space-free fields gives the fields back. */
  lemma {:induction false} SplitOfJoin(fields: seq<string>)
    requires |fields| >= 1
    requires forall k :: 0 <= k < |fields| ==> ' ' !in fields[k]
    ensures Split(Join(fields)) == fields
  {
    if |fields| == 1 {
      SplitWithoutSpace(fields[0]);
    } else {
      SplitOfJoin(fields[1..]);
      SplitAtFirstSpace(fields[0], Join(fields[1..]));
      assert fields == [fields[0]] + fields[1..];
    }
  }

  /** `s.split(" ")[k]`, `undefined` past the last field. */
  function Field(s: string, k: nat): Option<string>
  {
    var fields := Split(s);
    if k < |fields| then Some(fields[k]) else None
  }

  /** A split has one more field than the string has spaces. */
  lemma {:induction false} SplitCount(s: string)
    ensures |Split(s)| == Count(s, ' ') + 1
    decreases |s|
  {
    if |s| > 0 {
      SplitCount(s[1..]);
    }
  }

  /** `s.split(" ")[1]` is defined exactly when `s` holds a space. */
  lemma SecondFieldIffSpace(s: string)
    ensures Field(s, 1).Some? <==> ' ' in s
  {
    SplitCount(s);
    CountZeroIffAbsent(s, ' ');
  }

  /** Whatever the first word is, the second field of `word + " " + t` is `t` when `t` has no space. */
  lemma SecondFieldOf(word: string, t: string)
    requires ' ' !in word && ' ' !in t
    ensures Field(word + " " + t, 1) == Some(t)
  {
    SplitAtFirstSpace(word, t);
    SplitWithoutSpace(t);
  }

  /** `s.startsWith(prefix)`. */
  predicate StartsWith(s: string, prefix: string) {
    |prefix| <= |s| && s[..|prefix|] == prefix
  }
}
