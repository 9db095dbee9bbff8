/** `str.encode`: the UTF-8 encoding of a Python string, and the fact that makes
    the protocol's length byte correct -- a string's character count equals its
    encoded byte count exactly when every character is ASCII. */
module Utf8 {
  import opened Types

  /** True when every character is a 7-bit ASCII character, as `json.dumps`
      (with its default `ensure_ascii=True`) always produces. */
  predicate IsAscii(s: string) {
    forall i :: 0 <= i < |s| ==> (s[i] as int) < 0x80
  }

  /** The UTF-8 encoding of one Unicode scalar value (1 to 4 bytes). */
  function EncodeChar(c: char): (r: seq<Byte>)
    ensures 1 <= |r| <= 4
    ensures |r| == 1 <==> (c as int) < 0x80
    ensures (c as int) < 0x80 ==> r == [c as int]
  {
    var cp := c as int;
    if cp < 0x80 then [cp]
    else if cp < 0x800 then [0xC0 + cp / 64, 0x80 + cp % 64]
    else if cp < 0x1_0000 then [0xE0 + cp / 4096, 0x80 + (cp / 64) % 64, 0x80 + cp % 64]
    else [0xF0 + cp / 262144, 0x80 + (cp / 4096) % 64, 0x80 + (cp / 64) % 64, 0x80 + cp % 64]
  }

  /** The UTF-8 encoding of a string: the concatenation of its characters' encodings. */
  function Encode(s: string): (r: seq<Byte>)
    ensures |r| >= |s|
  {
    if s == [] then [] else EncodeChar(s[0]) + Encode(s[1..])
  }

  /** The encoded byte count equals the character count exactly for ASCII strings. */
  lemma {:induction false} EncodedLengthIsCharCount(s: string)
    ensures |Encode(s)| == |s| <==> IsAscii(s)
  {
    if s != [] {
      EncodedLengthIsCharCount(s[1..]);
      if IsAscii(s) {
        assert (s[0] as int) < 0x80;
        assert IsAscii(s[1..]) by {
          forall i | 0 <= i < |s[1..]| ensures (s[1..][i] as int) < 0x80 {
            assert s[1..][i] == s[i + 1];
          }
        }
      } else if (s[0] as int) < 0x80 {
        assert !IsAscii(s[1..]) by {
          var i :| 0 <= i < |s| && (s[i] as int) >= 0x80;
          assert s[1..][i - 1] == s[i];
        }
      }
    }
  }

  /** An ASCII string encodes to its own code points, one byte per character. */
  lemma {:induction false} AsciiEncodesToCodePoints(s: string)
    requires IsAscii(s)
    ensures |Encode(s)| == |s|
    ensures forall i :: 0 <= i < |s| ==> Encode(s)[i] == s[i] as int
  {
    if s != [] {
      assert IsAscii(s[1..]) by {
        forall i | 0 <= i < |s[1..]| ensures (s[1..][i] as int) < 0x80 {
          assert s[1..][i] == s[i + 1];
        }
      }
      AsciiEncodesToCodePoints(s[1..]);
      forall i | 0 <= i < |s| ensures Encode(s)[i] == s[i] as int {
        if i > 0 {
          assert Encode(s)[i] == Encode(s[1..])[i - 1];
          assert s[1..][i - 1] == s[i];
        }
      }
    }
  }
}
