/** Store path segments: every byte outside a small alphabet becomes `~` and two
    lower-case hexadecimal digits. */
module PathSegment {
  import opened Machine

  type Byte = b: nat | b < 256

  function Hex(d: nat): (c: char)
    requires d < 16
    ensures '0' <= c <= '9' || 'a' <= c <= 'f'
  {
    if d < 10 then '0' + d as char else 'a' + (d - 10) as char
  }

  predicate Plain(b: Byte) {
    || 'a' as int <= b <= 'z' as int || 'A' as int <= b <= 'Z' as int || '0' as int <= b <= '9' as int
    || b == '-' as int || b == '_' as int
  }

  function Encode(b: Byte): (s: string)
    ensures s != []
  {
    if Plain(b) then [b as char] else ['~', Hex(b / 16), Hex(b % 16)]
  }

  function Segment(bytes: seq<Byte>): string {
    if bytes == [] then "" else Encode(bytes[0]) + Segment(bytes[1..])
  }

  /** Letters, digits, `-`, `_` and `~`. */
  predicate SafeChar(c: char) {
    'a' <= c <= 'z' || 'A' <= c <= 'Z' || '0' <= c <= '9' || c == '-' || c == '_' || c == '~'
  }

  lemma {:induction false} SegmentConcat(a: seq<Byte>, b: seq<Byte>)
    ensures Segment(a + b) == Segment(a) + Segment(b)
  {
    if a == [] {
      assert a + b == b;
    } else {
      assert (a + b)[1..] == a[1..] + b;
      SegmentConcat(a[1..], b);
    }
  }

  /** No separator, dot or other special character ever reaches the file system. */
  lemma {:induction false} SegmentIsSafe(bytes: seq<Byte>)
    ensures forall i :: 0 <= i < |Segment(bytes)| ==> SafeChar(Segment(bytes)[i])
  {
    if bytes != [] { SegmentIsSafe(bytes[1..]); }
  }

  // ------------------------------------------------------------------- reading back

  const DIGITS: string := "0123456789abcdef"

  /** The value of a lower-case hexadecimal digit. */
  function DigitValue(c: char): (d: Option<nat>)
    ensures d.Some? ==> d.value < 16
  {
    if '0' <= c <= '9' then Some((c as int - '0' as int) as nat)
    else if 'a' <= c <= 'f' then Some((10 + (c as int - 'a' as int)) as nat)
    else None
  }

  /** The bytes of a segment: `~` announces two digits, the high one first, and every other
      character stands for its own code. */
  function Decoded(segment: string): Option<seq<Byte>> {
    if segment == "" then Some([])
    else if segment[0] == '~' then
      if |segment| < 3 || DigitValue(segment[1]).None? || DigitValue(segment[2]).None? then None
      else
        var rest := Decoded(segment[3..]);
        if rest.None? then None
        else Some([16 * DigitValue(segment[1]).value + DigitValue(segment[2]).value] + rest.value)
    else
      var rest := Decoded(segment[1..]);
      if rest.None? || segment[0] as int >= 256 then None else Some([segment[0] as int] + rest.value)
  }

  lemma DigitRoundTrip(d: nat)
    requires d < 16
    ensures DigitValue(Hex(d)) == Some(d) && Hex(d) == DIGITS[d]
  {
  }

  /** Which bytes are kept as they are, and what becomes of the others. */
  lemma EncodeMeaning(b: Byte)
    ensures Segment([b]) ==
      (if 97 <= b <= 122 || 65 <= b <= 90 || 48 <= b <= 57 || b == 45 || b == 95 then [b as char]
       else ['~', DIGITS[b / 16], DIGITS[b % 16]])
  {
    DigitRoundTrip(b / 16);
    DigitRoundTrip(b % 16);
    assert [b][1..] == [];
  }

  lemma DecodeOne(b: Byte, rest: string, tail: seq<Byte>)
    requires Decoded(rest) == Some(tail)
    ensures Decoded(Encode(b) + rest) == Some([b] + tail)
  {
    var all := Encode(b) + rest;
    if Plain(b) {
      assert all[1..] == rest;
    } else {
      DigitRoundTrip(b / 16);
      DigitRoundTrip(b % 16);
      assert all[1] == Hex(b / 16) && all[2] == Hex(b % 16) && all[3..] == rest;
    }
  }

  /** Every segment reads back as the bytes it was made from. */
  lemma {:induction false} DecodeSegment(bytes: seq<Byte>)
    ensures Decoded(Segment(bytes)) == Some(bytes)
  {
    if bytes != [] {
      DecodeSegment(bytes[1..]);
      assert Segment(bytes) == Encode(bytes[0]) + Segment(bytes[1..]);
      DecodeOne(bytes[0], Segment(bytes[1..]), bytes[1..]);
      assert bytes == [bytes[0]] + bytes[1..];
    }
  }

  /** Distinct ids never share a path segment. */
  lemma {:induction false} SegmentInjective(a: seq<Byte>, b: seq<Byte>)
    requires Segment(a) == Segment(b)
    ensures a == b
  {
    DecodeSegment(a);
    DecodeSegment(b);
  }

  /** Source: `path_segment`. */
  method Render(bytes: seq<Byte>) returns (segment: string)
    ensures segment == Segment(bytes)
    ensures Decoded(segment) == Some(bytes)
  {
    DecodeSegment(bytes);
    segment := "";
    for i := 0 to |bytes|
      invariant segment == Segment(bytes[..i])
    {
      assert bytes[..i + 1] == bytes[..i] + [bytes[i]];
      SegmentConcat(bytes[..i], [bytes[i]]);
      assert Segment([bytes[i]]) == Encode(bytes[i]);
      if Plain(bytes[i]) {
        segment := segment + [bytes[i] as char];
      } else {
        segment := segment + ['~', Hex(bytes[i] / 16), Hex(bytes[i] % 16)];
      }
    }
    assert bytes[..|bytes|] == bytes;
  }
}
