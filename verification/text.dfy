/**
 What the Rust standard library does with the text of `&str`: white space (the Unicode property, in UTF-8), `trim`,
 `split_whitespace`, ASCII case folding, and decimal numbers of type `usize`.
 */
module TextUtil {
  import opened Bytes

  const LF: byte := 10
  const CR: byte := 13
  const SPACE: byte := 32
  const COLON: byte := 58

  /** Number of bytes of the character at the front; a byte that starts none stands alone. */
  function CharLen(s: seq<byte>): (n: nat)
    requires s != []
    ensures 0 < n <= |s|
  {
    if Utf8Head(s) == 0 then 1 else Utf8Head(s)
  }

  /** Number of bytes of the white space character at the front, or 0. */
  function SpaceLen(s: seq<byte>): (n: nat)
    ensures n <= |s|
    ensures 0 < n ==> n == CharLen(s)
  {
    if |s| >= 1 && (9 <= s[0] <= 13 || s[0] == SPACE) then 1
    else if |s| >= 2 && s[0] == 0xC2 && (s[1] == 0x85 || s[1] == 0xA0) then 2
    else if |s| >= 3 && ( (s[0] == 0xE1 && s[1] == 0x9A && s[2] == 0x80)
                       || (s[0] == 0xE2 && s[1] == 0x80 && (0x80 <= s[2] <= 0x8A || s[2] == 0xA8 || s[2] == 0xA9 || s[2] == 0xAF))
                       || (s[0] == 0xE2 && s[1] == 0x81 && s[2] == 0x9F)
                       || (s[0] == 0xE3 && s[1] == 0x80 && s[2] == 0x80)) then 3
    else 0
  }

  function TrimStart(s: seq<byte>): (r: seq<byte>)
    ensures |r| <= |s|
    decreases |s|
  {
    if SpaceLen(s) == 0 then s else TrimStart(s[SpaceLen(s)..])
  }

  function TrimEnd(s: seq<byte>): (r: seq<byte>)
    ensures |r| <= |s|
    decreases |s|
  {
    if TrimStart(s) == [] then [] else s[..CharLen(s)] + TrimEnd(s[CharLen(s)..])
  }

  function Trim(s: seq<byte>): (r: seq<byte>)
    ensures |r| <= |s|
  {
    TrimEnd(TrimStart(s))
  }

  /** Length of the longest prefix without white space. */
  function WordLen(s: seq<byte>): (n: nat)
    ensures n <= |s|
    decreases |s|
  {
    if s == [] || SpaceLen(s) > 0 then 0 else CharLen(s) + WordLen(s[CharLen(s)..])
  }

  datatype Word = Word(text: seq<byte>, rest: seq<byte>)

  /** One step of `split_whitespace`. */
  function NextWord(s: seq<byte>): (r: Option<Word>)
    ensures r.Some? ==> |r.value.rest| <= |s|
  {
    var t := TrimStart(s);
    if t == [] then None else Some(Word(t[..WordLen(t)], t[WordLen(t)..]))
  }

  function ToAsciiLowercase(s: seq<byte>): (r: seq<byte>)
    ensures |r| == |s|
  {
    seq(|s|, k requires 0 <= k < |s| => if 65 <= s[k] <= 90 then s[k] + 32 else s[k])
  }

  function IndexOf(s: seq<byte>, b: byte): (i: nat)
    ensures i <= |s|
    ensures b !in s[..i]
    ensures i < |s| ==> s[i] == b
  {
    if s == [] || s[0] == b then 0 else
      var i := IndexOf(s[1..], b);
      assert s[..i + 1] == [s[0]] + s[1..][..i];
      i + 1
  }

  lemma {:induction false} IndexOfFirst(a: seq<byte>, b: byte, rest: seq<byte>)
    requires b !in a
    ensures IndexOf(a + [b] + rest, b) == |a|
    decreases |a|
  {
    var s := a + [b] + rest;
    if a != [] {
      assert s[1..] == a[1..] + [b] + rest;
      IndexOfFirst(a[1..], b, rest);
    }
  }

  const USIZE_MAX: nat := 0xFFFF_FFFF_FFFF_FFFF

  function Decimal(n: nat): (s: seq<byte>)
    ensures |s| > 0
    ensures forall k :: 0 <= k < |s| ==> 48 <= s[k] <= 57
  {
    if n < 10 then [48 + n] else Decimal(n / 10) + [48 + n % 10]
  }

  /** The digits after `acc` has been read, checked for overflow at each. */
  function Digits(s: seq<byte>, acc: nat): (r: Option<nat>)
    decreases |s|
  {
    if s == [] then Some(acc)
    else if !(48 <= s[0] <= 57) || acc * 10 + (s[0] - 48) > USIZE_MAX then None
    else Digits(s[1..], acc * 10 + (s[0] - 48))
  }

  /** `parse::<usize>`: one `+` may precede the digits. */
  function ParseUsize(s: seq<byte>): (r: Option<nat>) {
    if s == [] || s == [43] || s == [45] then None
    else Digits(if s[0] == 43 then s[1..] else s, 0)
  }

  lemma {:induction false} DigitsSnoc(s: seq<byte>, d: byte, acc: nat)
    requires Digits(s, acc).Some?
    ensures Digits(s + [d], acc) == Digits([d], Digits(s, acc).value)
    decreases |s|
  {
    if s == [] {
      assert s + [d] == [d];
    } else {
      assert (s + [d])[1..] == s[1..] + [d];
      DigitsSnoc(s[1..], d, acc * 10 + (s[0] - 48));
    }
  }

  lemma {:induction false} DigitsOfDecimal(n: nat)
    requires n <= USIZE_MAX
    ensures Digits(Decimal(n), 0) == Some(n)
  {
    if n < 10 {
      assert Digits([], n) == Some(n);
      assert Decimal(n)[1..] == [];
    } else {
      var d: byte := 48 + n % 10;
      DigitsOfDecimal(n / 10);
      DigitsSnoc(Decimal(n / 10), d, 0);
      assert [d][1..] == [];
    }
  }

  /** What `to_string` prints, `parse` reads back, for every `usize`. */
  lemma DecimalRoundTrip(n: nat)
    requires n <= USIZE_MAX
    ensures ParseUsize(Decimal(n)) == Some(n)
  {
    DigitsOfDecimal(n);
  }

  /** Text that `trim` leaves alone. */
  predicate Trimmed(s: seq<byte>) { Trim(s) == s }

  lemma SpaceLenExtends(a: seq<byte>, b: seq<byte>)
    requires ValidUtf8(a) && a != []
    ensures CharLen(a + b) == CharLen(a) && SpaceLen(a + b) == SpaceLen(a)
  {
  }

  lemma {:induction false} SpacesBefore(ws: seq<byte>, s: seq<byte>)
    requires ValidUtf8(ws) && TrimStart(ws) == []
    ensures TrimStart(ws + s) == TrimStart(s)
    decreases |ws|
  {
    if ws == [] {
      assert ws + s == s;
    } else {
      SpaceLenExtends(ws, s);
      assert (ws + s)[SpaceLen(ws)..] == ws[SpaceLen(ws)..] + s;
      SpacesBefore(ws[SpaceLen(ws)..], s);
    }
  }

  lemma {:induction false} NonSpaceKept(s: seq<byte>, ws: seq<byte>)
    requires ValidUtf8(s) && TrimStart(s) != []
    ensures TrimStart(s + ws) == TrimStart(s) + ws
    decreases |s|
  {
    if s != [] {
      SpaceLenExtends(s, ws);
      if SpaceLen(s) > 0 {
        assert (s + ws)[SpaceLen(s)..] == s[SpaceLen(s)..] + ws;
        NonSpaceKept(s[SpaceLen(s)..], ws);
      }
    }
  }

  lemma {:induction false} SpacesAfter(s: seq<byte>, ws: seq<byte>)
    requires ValidUtf8(s) && TrimStart(ws) == []
    ensures TrimEnd(s + ws) == TrimEnd(s)
    decreases |s|
  {
    if s == [] {
      assert s + ws == ws;
    } else {
      SpaceLenExtends(s, ws);
      var n := CharLen(s);
      assert (s + ws)[n..] == s[n..] + ws && (s + ws)[..n] == s[..n];
      SpacesAfter(s[n..], ws);
      if TrimStart(s) == [] {
        SpacesBefore(s, ws);
      } else {
        NonSpaceKept(s, ws);
      }
    }
  }

  lemma TrimStartFixed(s: seq<byte>)
    ensures TrimStart(s) == s || |TrimStart(s)| < |s|
    ensures TrimStart(s) == s <==> SpaceLen(s) == 0
    decreases |s|
  {
  }

  lemma NothingButSpaces(s: seq<byte>)
    requires TrimStart(s) == []
    ensures Trim(s) == []
  {
  }

  /** `trim` removes exactly the white space put around trimmed text. */
  lemma TrimPadded(before: seq<byte>, s: seq<byte>, after: seq<byte>)
    requires ValidUtf8(before) && ValidUtf8(s) && TrimStart(before) == [] && TrimStart(after) == []
    requires Trimmed(s)
    ensures Trim(before + s + after) == s
  {
    hide SpaceLen, CharLen, ValidUtf8, TrimStart, TrimEnd;
    assert before + s + after == before + (s + after);
    SpacesBefore(before, s + after);
    TrimStartFixed(s);
    NothingButSpaces(after);
    if s == [] {
      assert s + after == after;
    } else {
      NonSpaceKept(s, after);
      SpacesAfter(s, after);
    }
  }

  /** A non-empty piece of text without white space: a method, a target, a version. */
  predicate IsWord(s: seq<byte>) { s != [] && ValidUtf8(s) && WordLen(s) == |s| }

  lemma {:induction false} WordEnds(w: seq<byte>, s: seq<byte>)
    requires ValidUtf8(w) && WordLen(w) == |w| && (s == [] || SpaceLen(s) > 0)
    ensures WordLen(w + s) == |w|
    decreases |w|
  {
    if w == [] {
      assert w + s == s;
    } else {
      hide SpaceLen, CharLen, Utf8Head;
      SpaceLenExtends(w, s);
      assert (w + s)[CharLen(w)..] == w[CharLen(w)..] + s;
      WordEnds(w[CharLen(w)..], s);
    }
  }

  /** One word, up to the white space after it. */
  lemma NextWordIs(w: seq<byte>, s: seq<byte>)
    requires IsWord(w) && (s == [] || SpaceLen(s) > 0)
    ensures NextWord(w + s) == Some(Word(w, s))
  {
    SpaceLenExtends(w, s);
    WordEnds(w, s);
    assert (w + s)[..|w|] == w && (w + s)[|w|..] == s;
  }

  /** White space before a word, of any kind and length, is passed over. */
  lemma NextWordAfterSpaces(blank: seq<byte>, w: seq<byte>, s: seq<byte>)
    requires ValidUtf8(blank) && TrimStart(blank) == [] && IsWord(w) && (s == [] || SpaceLen(s) > 0)
    ensures NextWord(blank + (w + s)) == Some(Word(w, s))
  {
    hide ValidUtf8, WordLen, SpaceLen, IsWord;
    SpacesBefore(blank, w + s);
    NextWordIs(w, s);
  }

  lemma {:induction false} WordHasNoLineEnd(w: seq<byte>)
    requires ValidUtf8(w) && WordLen(w) == |w|
    ensures LF !in w && CR !in w
    decreases |w|
  {
    if w != [] {
      var n := CharLen(w);
      WordHasNoLineEnd(w[n..]);
      assert w == w[..n] + w[n..];
      assert forall k :: 0 <= k < n ==> w[k] != LF && w[k] != CR;
    }
  }

  // ------------------------------------------------------------ in characters

  /** The Unicode property White_Space. */
  predicate IsWhiteSpace(c: nat) {
    || 9 <= c <= 13 || c == 0x20 || c == 0x85 || c == 0xA0 || c == 0x1680 || 0x2000 <= c <= 0x200A
    || c == 0x2028 || c == 0x2029 || c == 0x202F || c == 0x205F || c == 0x3000
  }

  /** `SpaceLen` finds exactly the characters with that property. */
  lemma SpaceIsWhiteSpace(s: seq<byte>)
    requires Utf8Head(s) > 0
    ensures SpaceLen(s) > 0 <==> IsWhiteSpace(CodePoint(s))
  {
  }

  /** The characters of a text. */
  function Chars(s: seq<byte>): (r: seq<nat>)
    requires ValidUtf8(s)
    ensures s == [] <==> r == []
    decreases |s|
  {
    if s == [] then [] else [CodePoint(s)] + Chars(s[Utf8Head(s)..])
  }

  predicate NoneIsSpace(cs: seq<nat>) { forall k :: 0 <= k < |cs| ==> !IsWhiteSpace(cs[k]) }

  predicate AllAreSpace(cs: seq<nat>) { forall k :: 0 <= k < |cs| ==> IsWhiteSpace(cs[k]) }

  lemma OneMore(c: nat, cs: seq<nat>)
    ensures NoneIsSpace([c] + cs) <==> !IsWhiteSpace(c) && NoneIsSpace(cs)
    ensures AllAreSpace([c] + cs) <==> IsWhiteSpace(c) && AllAreSpace(cs)
  {
    var all := [c] + cs;
    assert all[0] == c && forall k :: 0 <= k < |cs| ==> cs[k] == all[k + 1];
    hide IsWhiteSpace;
  }

  /** A word is a non-empty text none of whose characters is white space. */
  lemma {:induction false} WordInChars(s: seq<byte>)
    requires ValidUtf8(s)
    ensures WordLen(s) == |s| <==> NoneIsSpace(Chars(s))
    decreases |s|
  {
    if s != [] {
      SpaceIsWhiteSpace(s);
      hide SpaceLen, CodePoint, IsWhiteSpace, Utf8Head, NoneIsSpace;
      WordInChars(s[CharLen(s)..]);
      OneMore(CodePoint(s), Chars(s[CharLen(s)..]));
    }
  }

  lemma {:induction false} SpacesInChars(s: seq<byte>)
    requires ValidUtf8(s)
    ensures TrimStart(s) == [] <==> AllAreSpace(Chars(s))
    decreases |s|
  {
    if s != [] {
      SpaceIsWhiteSpace(s);
      hide SpaceLen, CodePoint, IsWhiteSpace, Utf8Head, AllAreSpace;
      SpacesInChars(s[CharLen(s)..]);
      OneMore(CodePoint(s), Chars(s[CharLen(s)..]));
    }
  }

  function Last(cs: seq<nat>): nat
    requires cs != []
  {
    cs[|cs| - 1]
  }

  lemma {:induction false} EndInChars(s: seq<byte>)
    requires ValidUtf8(s) && s != []
    ensures TrimEnd(s) == s <==> !IsWhiteSpace(Last(Chars(s)))
    decreases |s|
  {
    SpacesInChars(s);
    var n, c, rest := CharLen(s), CodePoint(s), s[CharLen(s)..];
    assert Chars(s) == [c] + Chars(rest);
    hide SpaceLen, CodePoint, IsWhiteSpace, Utf8Head, TrimStart, Chars;
    if TrimStart(s) == [] {
      assert IsWhiteSpace(Last(Chars(s)));
    } else if rest == [] {
      assert s[..n] == s && TrimEnd(rest) == [];
      OneMore(c, Chars(rest));
    } else {
      EndInChars(rest);
      assert Last(Chars(s)) == Last(Chars(rest));
      assert s == s[..n] + rest;
      assert TrimEnd(s) == s ==> TrimEnd(s)[n..] == TrimEnd(rest) && s[n..] == rest;
    }
  }

  /** Text is trimmed if and only if neither its first nor its last character is white space. */
  lemma TrimmedInChars(s: seq<byte>)
    requires ValidUtf8(s)
    ensures Trimmed(s) <==> s == [] || !(IsWhiteSpace(Chars(s)[0]) || IsWhiteSpace(Last(Chars(s))))
  {
    TrimStartFixed(s);
    if s != [] {
      SpaceIsWhiteSpace(s);
      EndInChars(s);
      hide SpaceLen, CodePoint, IsWhiteSpace, TrimStart, TrimEnd;
    }
  }

  // ------------------------------------------------------------ in numbers

  predicate AllDigits(s: seq<byte>) { forall k :: 0 <= k < |s| ==> 48 <= s[k] <= 57 }

  /** The number that decimal digits make. */
  function DecimalValue(s: seq<byte>): nat
    requires AllDigits(s)
  {
    if s == [] then 0 else DecimalValue(s[..|s| - 1]) * 10 + (s[|s| - 1] - 48)
  }

  /** What `parse::<usize>` is documented to accept: digits, perhaps after a plus sign, that make a 64-bit number. */
  function UsizeOf(s: seq<byte>): Option<nat> {
    var digits := if |s| > 0 && s[0] == 43 then s[1..] else s;
    if digits != [] && AllDigits(digits) && DecimalValue(digits) < 0x1_0000_0000_0000_0000 then Some(DecimalValue(digits)) else None
  }

  lemma {:induction false} DigitsAreDecimal(s: seq<byte>)
    ensures Digits(s, 0).Some? <==> AllDigits(s) && DecimalValue(s) <= USIZE_MAX
    ensures Digits(s, 0).Some? ==> Digits(s, 0).value == DecimalValue(s)
    decreases |s|
  {
    if s != [] {
      var init, last := s[..|s| - 1], s[|s| - 1];
      DigitsAreDecimal(init);
      assert s == init + [last];
      assert AllDigits(s) <==> AllDigits(init) && 48 <= last <= 57;
      if Digits(init, 0).Some? {
        DigitsSnoc(init, last, 0);
        assert [last][1..] == [];
      } else {
        DigitsPrefix(init, last, 0);
      }
    }
  }

  /** A text that is refused is refused with more digits after it. */
  lemma {:induction false} DigitsPrefix(s: seq<byte>, d: byte, acc: nat)
    requires Digits(s, acc) == None
    ensures Digits(s + [d], acc) == None
    decreases |s|
  {
    assert (s + [d])[1..] == s[1..] + [d];
    if 48 <= s[0] <= 57 && acc * 10 + (s[0] - 48) <= USIZE_MAX { DigitsPrefix(s[1..], d, acc * 10 + (s[0] - 48)); }
  }

  /** The parser with its overflow checks accepts exactly these, and gives their value. */
  lemma ParseUsizeIsDecimal(s: seq<byte>)
    ensures ParseUsize(s) == UsizeOf(s)
  {
    var digits := if |s| > 0 && s[0] == 43 then s[1..] else s;
    DigitsAreDecimal(digits);
  }

  /** What `to_string` prints are the digits of the number, without leading zeros. */
  lemma {:induction false} DecimalIsDecimal(n: nat)
    ensures AllDigits(Decimal(n)) && DecimalValue(Decimal(n)) == n && (n > 0 ==> Decimal(n)[0] != 48)
  {
    if n >= 10 {
      DecimalIsDecimal(n / 10);
      assert Decimal(n)[..|Decimal(n)| - 1] == Decimal(n / 10);
    } else {
      assert Decimal(n)[..0] == [];
    }
  }
}
