/** UTF-8 well-formedness (section 4 of RFC 3629) and the lossy conversion of Rust's standard library. */
module Utf8 {
  import opened ByteStrings

  predicate Tail(b: byte) { 0x80 <= b < 0xC0 }

  /** The second bytes that RFC 3629 allows after the lead byte of a three-byte character. */
  predicate Second3(lead: byte, b: byte) {
    || (lead == 0xE0 && 0xA0 <= b < 0xC0)
    || (lead == 0xED && 0x80 <= b < 0xA0)
    || (0xE1 <= lead < 0xF0 && lead != 0xED && Tail(b))
  }

  /** The same for four-byte characters. */
  predicate Second4(lead: byte, b: byte) {
    || (lead == 0xF0 && 0x90 <= b < 0xC0)
    || (0xF1 <= lead < 0xF4 && Tail(b))
    || (lead == 0xF4 && 0x80 <= b < 0x90)
  }

  /** The length of the character at the front of `s`; 0 when there is none. */
  function CharLen(s: Bytes): (k: nat)
    ensures k <= |s| && k <= 4
  {
    if s == [] then 0
    else if s[0] < 0x80 then 1
    else if |s| >= 2 && 0xC2 <= s[0] < 0xE0 && Tail(s[1]) then 2
    else if |s| >= 3 && Second3(s[0], s[1]) && Tail(s[2]) then 3
    else if |s| >= 4 && Second4(s[0], s[1]) && Tail(s[2]) && Tail(s[3]) then 4
    else 0
  }

  predicate Valid(s: Bytes)
    decreases |s|
  {
    s == [] || (CharLen(s) > 0 && Valid(s[CharLen(s)..]))
  }

  type Str = s: Bytes | Valid(s) witness []

  const REPLACEMENT: Bytes := [0xEF, 0xBF, 0xBD]

  /** How many bytes one replacement character stands for: the longest start of a character, at least one byte. */
  function BadLen(s: Bytes): (k: nat)
    requires s != []
    ensures 1 <= k <= |s|
  {
    if |s| >= 2 && Second3(s[0], s[1]) then 2
    else if |s| >= 2 && Second4(s[0], s[1]) then (if |s| >= 3 && Tail(s[2]) then 3 else 2)
    else 1
  }

  /** `String::from_utf8_lossy`. */
  function Lossy(s: Bytes): Bytes
    decreases |s|
  {
    if s == [] then []
    else if CharLen(s) > 0 then s[..CharLen(s)] + Lossy(s[CharLen(s)..])
    else REPLACEMENT + Lossy(s[BadLen(s)..])
  }

  /** A character in front of a well-formed string makes a well-formed string. */
  lemma ValidCons(c: Bytes, s: Bytes)
    requires c != [] && CharLen(c) == |c| && Valid(s)
    ensures Valid(c + s)
  {
    assert CharLen(c + s) == |c|;
    assert (c + s)[|c|..] == s;
  }

  lemma {:induction false} LossyIsValid(s: Bytes)
    ensures Valid(Lossy(s))
    decreases |s|
  {
    if s != [] {
      var k := CharLen(s);
      if k > 0 {
        LossyIsValid(s[k..]);
        ValidCons(s[..k], Lossy(s[k..]));
      } else {
        LossyIsValid(s[BadLen(s)..]);
        ValidCons(REPLACEMENT, Lossy(s[BadLen(s)..]));
      }
    }
  }

  /** Repair at most triples the text. */
  lemma {:induction false} LossyLength(s: Bytes)
    ensures |Lossy(s)| <= 3 * |s|
    decreases |s|
  {
    if s != [] {
      LossyLength(s[if CharLen(s) > 0 then CharLen(s) else BadLen(s)..]);
    }
  }

  lemma {:induction false} LossyKeepsValid(s: Bytes)
    requires Valid(s)
    ensures Lossy(s) == s
    decreases |s|
  {
    if s != [] {
      LossyKeepsValid(s[CharLen(s)..]);
      assert s == s[..CharLen(s)] + s[CharLen(s)..];
    }
  }

  /** Lossy text is always well-formed, and it is the input exactly when the input was. */
  lemma LossyIsIdentityOnValid(s: Bytes)
    ensures Valid(Lossy(s))
    ensures Lossy(s) == s <==> Valid(s)
  {
    LossyIsValid(s);
    if Valid(s) {
      LossyKeepsValid(s);
    }
  }

  // ---------------------------------------------------------------- the standard's own definition

  /** The code points that UTF-8 encodes: all up to U+10FFFF but the surrogates. */
  predicate Scalar(c: nat) { c < 0xD800 || 0xE000 <= c < 0x11_0000 }

  /** The encoding table of section 3 of RFC 3629. */
  function EncodeChar(c: nat): (b: Bytes)
    requires Scalar(c)
    ensures 1 <= |b| <= 4
  {
    if c < 0x80 then [c as byte]
    else if c < 0x800 then [(0xC0 + c / 64) as byte, (0x80 + c % 64) as byte]
    else if c < 0x1_0000 then [(0xE0 + c / 4096) as byte, (0x80 + c / 64 % 64) as byte, (0x80 + c % 64) as byte]
    else [(0xF0 + c / 262_144) as byte, (0x80 + c / 4096 % 64) as byte, (0x80 + c / 64 % 64) as byte,
          (0x80 + c % 64) as byte]
  }

  predicate AllScalar(cs: seq<nat>) { forall c | c in cs :: Scalar(c) }

  function EncodeText(cs: seq<nat>): Bytes
    requires AllScalar(cs)
  {
    if cs == [] then [] else EncodeChar(cs[0]) + EncodeText(cs[1..])
  }

  /** The code point of a character. */
  function DecodeChar(b: Bytes): nat
    requires b != [] && CharLen(b) == |b|
  {
    if |b| == 1 then b[0] as nat
    else if |b| == 2 then (b[0] as nat - 0xC0) * 64 + (b[1] as nat - 0x80)
    else if |b| == 3 then (b[0] as nat - 0xE0) * 4096 + (b[1] as nat - 0x80) * 64 + (b[2] as nat - 0x80)
    else (b[0] as nat - 0xF0) * 262_144 + (b[1] as nat - 0x80) * 4096 + (b[2] as nat - 0x80) * 64 + (b[3] as nat - 0x80)
  }

  lemma Digits(x: nat, y: nat)
    requires y < 64
    ensures (x * 64 + y) / 64 == x && (x * 64 + y) % 64 == y
  {
  }

  lemma TwoBytes(b: Bytes)
    requires |b| == 2 && CharLen(b) == 2
    ensures Scalar(DecodeChar(b)) && EncodeChar(DecodeChar(b)) == b
  {
    var x, y := b[0] as nat - 0xC0, b[1] as nat - 0x80;
    Digits(x, y);
    assert DecodeChar(b) == x * 64 + y;
  }

  lemma ThreeBytes(b: Bytes)
    requires |b| == 3 && CharLen(b) == 3
    ensures Scalar(DecodeChar(b)) && EncodeChar(DecodeChar(b)) == b
  {
    var x, y, z := b[0] as nat - 0xE0, b[1] as nat - 0x80, b[2] as nat - 0x80;
    var c := (x * 64 + y) * 64 + z;
    assert DecodeChar(b) == c;
    Digits(x * 64 + y, z);
    Digits(x, y);
    assert c / 4096 == x;
    assert 0x800 <= c < 0x1_0000;
  }

  lemma FourBytes(b: Bytes)
    requires |b| == 4 && CharLen(b) == 4
    ensures Scalar(DecodeChar(b)) && EncodeChar(DecodeChar(b)) == b
  {
    var w, x, y, z := b[0] as nat - 0xF0, b[1] as nat - 0x80, b[2] as nat - 0x80, b[3] as nat - 0x80;
    var c := ((w * 64 + x) * 64 + y) * 64 + z;
    assert DecodeChar(b) == c;
    Digits((w * 64 + x) * 64 + y, z);
    Digits(w * 64 + x, y);
    Digits(w, x);
    assert c / 4096 == w * 64 + x;
    assert c / 262_144 == w;
    assert 0x1_0000 <= c < 0x11_0000;
  }

  lemma CharIsEncoded(b: Bytes)
    requires b != [] && CharLen(b) == |b|
    ensures Scalar(DecodeChar(b)) && EncodeChar(DecodeChar(b)) == b
  {
    if |b| == 2 {
      TwoBytes(b);
    } else if |b| == 3 {
      ThreeBytes(b);
    } else if |b| == 4 {
      FourBytes(b);
    }
  }

  /** A character ends where it ends, whatever follows. */
  lemma CharLenIsLocal(s: Bytes, t: Bytes)
    requires CharLen(s) > 0
    ensures var k := CharLen(s);
            CharLen(s[..k]) == k && CharLen(s + t) == k && (s + t)[..k] == s[..k] && (s + t)[k..] == s[k..] + t
  {
    var k, u, v := CharLen(s), s[..CharLen(s)], s + t;
    assert forall i | 0 <= i < k :: u[i] == s[i] && v[i] == s[i];
  }

  lemma EncodedAlone(c: nat)
    requires Scalar(c)
    ensures CharLen(EncodeChar(c)) == |EncodeChar(c)|
  {
    var b := EncodeChar(c);
    assert |b| >= 2 ==> Tail(b[|b| - 1]);
  }

  lemma EncodedIsChar(c: nat, rest: Bytes)
    requires Scalar(c)
    ensures CharLen(EncodeChar(c) + rest) == |EncodeChar(c)|
  {
    EncodedAlone(c);
    CharLenIsLocal(EncodeChar(c), rest);
  }

  lemma {:induction false} EncodedIsValid(cs: seq<nat>)
    requires AllScalar(cs)
    ensures Valid(EncodeText(cs))
  {
    if cs != [] {
      var b, rest := EncodeChar(cs[0]), EncodeText(cs[1..]);
      EncodedIsValid(cs[1..]);
      EncodedIsChar(cs[0], rest);
      assert (b + rest)[|b|..] == rest;
    }
  }

  lemma {:induction false} ValidIsEncoded(s: Bytes) returns (cs: seq<nat>)
    requires Valid(s)
    ensures AllScalar(cs) && EncodeText(cs) == s
    decreases |s|
  {
    if s == [] {
      cs := [];
    } else {
      var k := CharLen(s);
      var rest := ValidIsEncoded(s[k..]);
      CharLenIsLocal(s, []);
      CharIsEncoded(s[..k]);
      cs := [DecodeChar(s[..k])] + rest;
      assert cs[1..] == rest;
      assert s == s[..k] + s[k..];
    }
  }

  /** The predicate accepts exactly the encodings of code points. */
  lemma ValidIff(s: Bytes)
    ensures Valid(s) <==> exists cs: seq<nat> :: AllScalar(cs) && EncodeText(cs) == s
  {
    if Valid(s) {
      var cs := ValidIsEncoded(s);
    }
    if cs: seq<nat> :| AllScalar(cs) && EncodeText(cs) == s {
      EncodedIsValid(cs);
    }
  }

  lemma PieceBeginsChar(s: Bytes)
    requires s != [] && CharLen(s) == 0 && BadLen(s) >= 2
    ensures exists t :: CharLen(s[..BadLen(s)] + t) > BadLen(s)
  {
    var k := BadLen(s);
    var t: Bytes := if k == 2 && Second4(s[0], s[1]) then [0x80, 0x80] else [0x80];
    var u := s[..k] + t;
    assert u[0] == s[0] && u[1] == s[1] && u[k] == 0x80 && (k == 3 ==> u[2] == s[2]);
    assert CharLen(u) > k;
  }

  lemma LongerPieceDoesNot(s: Bytes, j: nat, t: Bytes)
    requires s != [] && CharLen(s) == 0 && BadLen(s) < j <= |s|
    ensures CharLen(s[..j] + t) < j
  {
    var u := s[..j] + t;
    assert u[0] == s[0] && u[1] == s[1] && (j > 2 ==> u[2] == s[2]) && (j > 3 ==> u[3] == s[3]);
  }

  /** Where there is no character, one replacement stands for the longest piece that still begins one, or for
      one byte. */
  lemma OneReplacementPerPiece(s: Bytes)
    requires s != [] && CharLen(s) == 0
    ensures Lossy(s) == [0xEF, 0xBF, 0xBD] + Lossy(s[BadLen(s)..])
    ensures BadLen(s) == 1 || exists t :: CharLen(s[..BadLen(s)] + t) > BadLen(s)
    ensures forall j: nat, t | BadLen(s) < j <= |s| :: CharLen(s[..j] + t) < j
  {
    if BadLen(s) >= 2 {
      PieceBeginsChar(s);
    }
    forall j: nat, t | BadLen(s) < j <= |s|
      ensures CharLen(s[..j] + t) < j
    {
      LongerPieceDoesNot(s, j, t);
    }
  }

  /** Well-formed text in front is copied. */
  lemma {:induction false} LossyKeepsFront(a: Bytes, b: Bytes)
    requires Valid(a)
    ensures Lossy(a + b) == a + Lossy(b)
    decreases |a|
  {
    if a == [] {
      assert a + b == b;
    } else {
      var k := CharLen(a);
      CharLenIsLocal(a, b);
      LossyKeepsFront(a[k..], b);
      assert a == a[..k] + a[k..];
      Associative(a[..k], a[k..], Lossy(b));
    }
  }
}
