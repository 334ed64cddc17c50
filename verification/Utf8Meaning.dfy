/** UTF-8: how long a text is in bytes, and which bytes the crash file's reader takes for text. */
module Utf8Meaning {
  import opened Octets
  import opened Text
  import opened CrashFormat

  /** The UTF-8 form of a character (section 3 of RFC 3629). */
  function Encoded(c: char): (b: seq<byte>)
    ensures 1 <= |b| <= 4
  {
    var n := c as int;
    if n < 0x80 then [n as byte]
    else if n < 0x800 then [(0xC0 + n / 64) as byte, (0x80 + n % 64) as byte]
    else if n < 0x10000 then [(0xE0 + n / 4096) as byte, (0x80 + n / 64 % 64) as byte, (0x80 + n % 64) as byte]
    else
      [(0xF0 + n / 262144) as byte, (0x80 + n / 4096 % 64) as byte, (0x80 + n / 64 % 64) as byte,
       (0x80 + n % 64) as byte]
  }

  function EncodedAll(s: string): seq<byte> {
    if s == [] then [] else Encoded(s[0]) + EncodedAll(s[1..])
  }

  /** The length of a text in bytes is that of its UTF-8 form. */
  lemma {:induction false} ByteLenMeans(s: string)
    ensures ByteLen(s) == |EncodedAll(s)|
  {
    if s != [] {
      ByteLenMeans(s[1..]);
      CharBytes(s[0]);
    }
  }

  lemma CharBytes(c: char)
    ensures Utf8Len(c) == |Encoded(c)|
  {
    var n := c as int;
    assert c < '\U{80}' <==> n < 0x80;
    assert c < '\U{800}' <==> n < 0x800;
    assert c < '\U{10000}' <==> n < 0x10000;
  }

  lemma EncodedLeads(c: char, rest: seq<byte>)
    ensures CharLength(Encoded(c) + rest) == |Encoded(c)|
  {
    var n := c as int;
    var b := Encoded(c) + rest;
    if n < 0x80 {
      assert b[0] == n as byte;
    } else if n < 0x800 {
      LeadsTwo(b, n / 64, n % 64);
    } else if n < 0x10000 {
      ThreeParts(n);
      LeadsThree(b, n / 4096, n / 64 % 64, n % 64);
    } else {
      FourParts(n);
      LeadsFour(b, n / 262144, n / 4096 % 64, n / 64 % 64, n % 64);
    }
  }

  lemma LeadsTwo(b: seq<byte>, a: int, z: int)
    requires 2 <= a < 32 && 0 <= z < 64
    requires |b| >= 2 && b[0] == (0xC0 + a) as byte && b[1] == (0x80 + z) as byte
    ensures CharLength(b) == 2
  {
  }

  lemma LeadsThree(b: seq<byte>, a: int, y: int, z: int)
    requires 0 <= a < 16 && 0 <= y < 64 && 0 <= z < 64 && (a == 0 ==> y >= 32) && (a == 13 ==> y < 32)
    requires |b| >= 3 && b[0] == (0xE0 + a) as byte && b[1] == (0x80 + y) as byte && b[2] == (0x80 + z) as byte
    ensures CharLength(b) == 3
  {
  }

  lemma LeadsFour(b: seq<byte>, a: int, x: int, y: int, z: int)
    requires 0 <= a < 5 && 0 <= x < 64 && 0 <= y < 64 && 0 <= z < 64 && (a == 0 ==> x >= 16) && (a == 4 ==> x < 16)
    requires |b| >= 4 && b[0] == (0xF0 + a) as byte && b[1] == (0x80 + x) as byte
    requires b[2] == (0x80 + y) as byte && b[3] == (0x80 + z) as byte
    ensures CharLength(b) == 4
  {
  }

  /** The number of a character. */
  predicate IsScalar(n: int) {
    0 <= n < 0xD800 || 0xE000 <= n < 0x110000
  }

  lemma ThreeParts(n: int)
    requires IsScalar(n) && 0x800 <= n < 0x10000
    ensures n / 4096 < 16 && (n / 4096 == 0 ==> n / 64 % 64 >= 32) && (n / 4096 == 13 ==> n / 64 % 64 < 32)
  {
    var m := n / 64;
    assert n / 4096 == m / 64 && m == 64 * (m / 64) + m % 64;
  }

  lemma FourParts(n: int)
    requires IsScalar(n) && 0x10000 <= n
    ensures n / 262144 < 5 && (n / 262144 == 0 ==> n / 4096 % 64 >= 16) && (n / 262144 == 4 ==> n / 4096 % 64 < 16)
  {
    var m := n / 4096;
    assert n / 262144 == m / 64 && m == 64 * (m / 64) + m % 64;
  }

  lemma Leads(b: seq<byte>) returns (c: char)
    requires CharLength(b) > 0
    ensures b[..CharLength(b)] == Encoded(c)
  {
    var k := CharLength(b);
    if k == 1 {
      c := b[0] as int as char;
    } else if k == 2 {
      c := Two(b[0] as int - 0xC0, b[1] as int - 0x80);
    } else if k == 3 {
      c := Three(b[0] as int - 0xE0, b[1] as int - 0x80, b[2] as int - 0x80);
    } else {
      c := Four(b[0] as int - 0xF0, b[1] as int - 0x80, b[2] as int - 0x80, b[3] as int - 0x80);
    }
  }

  lemma Two(a: int, z: int) returns (c: char)
    requires 2 <= a < 32 && 0 <= z < 64
    ensures Encoded(c) == [(0xC0 + a) as byte, (0x80 + z) as byte]
  {
    c := (64 * a + z) as char;
  }

  lemma Three(a: int, y: int, z: int) returns (c: char)
    requires 0 <= a < 16 && 0 <= y < 64 && 0 <= z < 64 && (a == 0 ==> y >= 32) && (a == 13 ==> y < 32)
    ensures Encoded(c) == [(0xE0 + a) as byte, (0x80 + y) as byte, (0x80 + z) as byte]
  {
    var n := 4096 * a + 64 * y + z;
    assert IsScalar(n) && n / 4096 == a && n / 64 == 64 * a + y;
    c := n as char;
  }

  lemma Four(a: int, x: int, y: int, z: int) returns (c: char)
    requires 0 <= a < 5 && 0 <= x < 64 && 0 <= y < 64 && 0 <= z < 64 && (a == 0 ==> x >= 16) && (a == 4 ==> x < 16)
    ensures Encoded(c) == [(0xF0 + a) as byte, (0x80 + x) as byte, (0x80 + y) as byte, (0x80 + z) as byte]
  {
    var n := 262144 * a + 4096 * x + 64 * y + z;
    assert IsScalar(n) && n / 262144 == a && n / 4096 == 64 * a + x && n / 64 == 4096 * a + 64 * x + y;
    c := n as char;
  }

  lemma {:induction false} EncodedIsText(s: string)
    ensures Utf8(EncodedAll(s))
  {
    hide CharLength, Encoded;
    if s != [] {
      var rest := EncodedAll(s[1..]);
      EncodedIsText(s[1..]);
      EncodedLeads(s[0], rest);
      assert (Encoded(s[0]) + rest)[|Encoded(s[0])|..] == rest;
    }
  }

  lemma {:induction false} TextIsEncoded(b: seq<byte>) returns (s: string)
    requires Utf8(b)
    ensures b == EncodedAll(s)
  {
    hide CharLength, Encoded;
    if b == [] {
      s := [];
    } else {
      var k := CharLength(b);
      var c := Leads(b);
      var rest := TextIsEncoded(b[k..]);
      s := [c] + rest;
      assert s[1..] == rest && b == b[..k] + b[k..];
    }
  }

  /** Bytes are taken for text exactly when they are the UTF-8 form of some characters. */
  lemma Utf8Exactly(b: seq<byte>)
    ensures Utf8(b) <==> exists s :: b == EncodedAll(s)
  {
    hide Utf8, EncodedAll;
    if Utf8(b) {
      var s := TextIsEncoded(b);
    }
    if s :| b == EncodedAll(s) {
      EncodedIsText(s);
    }
  }
}
