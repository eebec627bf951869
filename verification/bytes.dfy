/** Bytes, options and UTF-8 text, shared by every other module. */
module Bytes {

  type byte = b: int | 0 <= b < 256

  datatype Option<+T> = None | Some(value: T)

  /** `p` lies in `s` from position `i` on. */
  predicate OccursAt(s: seq<byte>, p: seq<byte>, i: nat) { i + |p| <= |s| && s[i..i + |p|] == p }

  function InRange(b: byte, lo: int, hi: int): bool {
    lo <= b <= hi
  }

  /** Number of bytes of the well-formed UTF-8 sequence at the front of `s` (RFC 3629, section 4), or 0. */
  function Utf8Head(s: seq<byte>): (n: nat)
    ensures n <= |s| && n <= 4
  {
    if |s| >= 1 && s[0] < 0x80 then 1
    else if |s| >= 2 && InRange(s[0], 0xC2, 0xDF) && InRange(s[1], 0x80, 0xBF) then 2
    else if |s| >= 3 && InRange(s[2], 0x80, 0xBF)
         && ( (s[0] == 0xE0 && InRange(s[1], 0xA0, 0xBF))
           || (s[0] == 0xED && InRange(s[1], 0x80, 0x9F))
           || (InRange(s[0], 0xE1, 0xEF) && s[0] != 0xED && InRange(s[1], 0x80, 0xBF))) then 3
    else if |s| >= 4 && InRange(s[2], 0x80, 0xBF) && InRange(s[3], 0x80, 0xBF)
         && ( (s[0] == 0xF0 && InRange(s[1], 0x90, 0xBF))
           || (s[0] == 0xF4 && InRange(s[1], 0x80, 0x8F))
           || (InRange(s[0], 0xF1, 0xF3) && InRange(s[1], 0x80, 0xBF))) then 4
    else 0
  }

  /** A Unicode scalar value: a code point that is no surrogate. */
  predicate Scalar(c: nat) { c < 0xD800 || 0xE000 <= c < 0x11_0000 }

  /** `s` is the UTF-8 form of the scalar value `c`, by the table of RFC 3629, section 3. */
  predicate IsUtf8Of(s: seq<byte>, c: nat) {
    && Scalar(c)
    && (forall k :: 1 <= k < |s| ==> 0x80 <= s[k] < 0xC0)
    && match |s|
       case 1 => c < 0x80 && s[0] == c
       case 2 => 0x80 <= c < 0x800 && 0xC0 <= s[0] < 0xE0 && c == (s[0] as int - 0xC0) * 64 + (s[1] as int - 0x80)
       case 3 => 0x800 <= c < 0x1_0000 && 0xE0 <= s[0] < 0xF0 && c == (s[0] as int - 0xE0) * 4096 + (s[1] as int - 0x80) * 64 + (s[2] as int - 0x80)
       case 4 => 0x1_0000 <= c && 0xF0 <= s[0] < 0xF8
                 && c == (s[0] as int - 0xF0) * 262144 + (s[1] as int - 0x80) * 4096 + (s[2] as int - 0x80) * 64 + (s[3] as int - 0x80)
       case _ => false
  }

  /** The scalar value at the front of `s`. */
  function CodePoint(s: seq<byte>): (c: int)
    requires Utf8Head(s) > 0
    ensures c >= 0
  {
    match Utf8Head(s)
    case 1 => s[0]
    case 2 => (s[0] as int - 0xC0) * 64 + (s[1] as int - 0x80)
    case 3 => (s[0] as int - 0xE0) * 4096 + (s[1] as int - 0x80) * 64 + (s[2] as int - 0x80)
    case _ => (s[0] as int - 0xF0) * 262144 + (s[1] as int - 0x80) * 4096 + (s[2] as int - 0x80) * 64 + (s[3] as int - 0x80)
  }

  /** What is recognised at the front is the UTF-8 form of one scalar value. */
  lemma Utf8HeadDecodes(s: seq<byte>)
    requires Utf8Head(s) > 0
    ensures IsUtf8Of(s[..Utf8Head(s)], CodePoint(s))
  {
  }

  /** And the UTF-8 form of a scalar value is recognised, whatever follows it. */
  lemma Utf8HeadRecognises(u: seq<byte>, c: nat, t: seq<byte>)
    requires IsUtf8Of(u, c)
    ensures Utf8Head(u + t) == |u| && CodePoint(u + t) == c
  {
    var s := u + t;
    assert forall k :: 0 <= k < |u| ==> s[k] == u[k];
  }

  predicate ValidUtf8(s: seq<byte>)
    decreases |s|
  {
    s == [] || (Utf8Head(s) > 0 && ValidUtf8(s[Utf8Head(s)..]))
  }

  /** A Rust `String`, or the text of a proto3 `string` field. */
  type Text = s: seq<byte> | ValidUtf8(s) witness []

  lemma Utf8HeadExtends(a: seq<byte>, b: seq<byte>)
    requires Utf8Head(a) > 0
    ensures Utf8Head(a + b) == Utf8Head(a)
  {
  }

  lemma {:induction false} ValidUtf8Concat(a: seq<byte>, b: seq<byte>)
    requires ValidUtf8(a) && ValidUtf8(b)
    ensures ValidUtf8(a + b)
    decreases |a|
  {
    hide Utf8Head;
    if a == [] {
      assert a + b == b;
    } else {
      var n := Utf8Head(a);
      ValidUtf8Concat(a[n..], b);
      Utf8HeadExtends(a, b);
      assert (a + b)[n..] == a[n..] + b;
    }
  }
}
