/** base64url as the pages encode and decode it: btoa and atob with the alphabet exchanged and the
    padding dropped (implement.html, verify.html; section 5 of RFC 4648). */
module Base64Url {
  import opened Wrappers
  import opened Merkle
  import opened Sequences

  // ---------------------------------------------------------- the alphabet

  type Sextet = v: int | 0 <= v < 64

  function CharOf(v: Sextet): (c: char)
    ensures ValueOf(c) == Some(v)
  {
    if v < 26 then (65 + v) as char
    else if v < 52 then (71 + v) as char
    else if v < 62 then (v - 4) as char
    else if v == 62 then '+'
    else '/'
  }

  function ValueOf(c: char): Option<Sextet> {
    if 'A' <= c <= 'Z' then Some(c as int - 65)
    else if 'a' <= c <= 'z' then Some(c as int - 71)
    else if '0' <= c <= '9' then Some(c as int + 4)
    else if c == '+' then Some(62)
    else if c == '/' then Some(63)
    else None
  }

  predicate InAlphabet(s: string) {
    forall i :: 0 <= i < |s| ==> ValueOf(s[i]).Some?
  }

  function CharsOf(v: seq<Sextet>): (s: string)
    ensures |s| == |v| && forall i :: 0 <= i < |v| ==> s[i] == CharOf(v[i])
  {
    seq(|v|, i requires 0 <= i < |v| => CharOf(v[i]))
  }

  function ValuesOf(s: string): (v: seq<Sextet>)
    requires InAlphabet(s)
    ensures |v| == |s| && forall i :: 0 <= i < |s| ==> v[i] == ValueOf(s[i]).value
  {
    seq(|s|, i requires 0 <= i < |s| => ValueOf(s[i]).value)
  }

  lemma {:induction false} ValuesOfChars(v: seq<Sextet>)
    ensures InAlphabet(CharsOf(v)) && ValuesOf(CharsOf(v)) == v
  {
  }

  // ---------------------------------------------------- three bytes, four sextets

  function Sextets(b: Bytes): (v: seq<Sextet>)
    ensures |v| % 4 != 1
  {
    if b == [] then []
    else if |b| == 1 then [b[0] / 4, b[0] % 4 * 16]
    else if |b| == 2 then [b[0] / 4, b[0] % 4 * 16 + b[1] / 16, b[1] % 16 * 4]
    else
      [b[0] / 4, b[0] % 4 * 16 + b[1] / 16, b[1] % 16 * 4 + b[2] / 64, b[2] % 64] + Sextets(b[3..])
  }

  /** Bits left over at the end are dropped. */
  function Octets(v: seq<Sextet>): Bytes
    requires |v| % 4 != 1
  {
    if v == [] then []
    else
      var v0: int, v1: int := v[0], v[1];
      if |v| == 2 then [v0 * 4 + v1 / 16]
      else
        var v2: int := v[2];
        if |v| == 3 then [v0 * 4 + v1 / 16, v1 % 16 * 16 + v2 / 4]
        else
          var v3: int := v[3];
          [v0 * 4 + v1 / 16, v1 % 16 * 16 + v2 / 4, v2 % 4 * 64 + v3] + Octets(v[4..])
  }

  lemma Regroup(x: byte, y: byte, z: byte)
    ensures x / 4 * 4 + (x % 4 * 16 + y / 16) / 16 == x
    ensures (x % 4 * 16 + y / 16) % 16 * 16 + (y % 16 * 4 + z / 64) / 4 == y
    ensures (y % 16 * 4 + z / 64) % 4 * 64 + z % 64 == z
  {
  }

  lemma {:induction false} OctetsOfSextets(b: Bytes)
    ensures Octets(Sextets(b)) == b
  {
    if |b| == 1 {
      Regroup(b[0], 0, 0);
    } else if |b| == 2 {
      Regroup(b[0], b[1], 0);
    } else if |b| > 2 {
      Regroup(b[0], b[1], b[2]);
      OctetsOfSextets(b[3..]);
      assert Sextets(b)[4..] == Sextets(b[3..]);
      assert b == [b[0], b[1], b[2]] + b[3..];
    }
  }

  // ------------------------------------------------------------ btoa and atob

  function Unpadded(b: Bytes): string {
    CharsOf(Sextets(b))
  }

  function Padding(n: nat): string {
    if n % 4 == 2 then "==" else if n % 4 == 3 then "=" else if n % 4 == 1 then "===" else ""
  }

  /** `btoa` of the text whose character codes are the bytes. */
  function Btoa(b: Bytes): string {
    Unpadded(b) + Padding(|Unpadded(b)|)
  }

  predicate IsWhite(c: char) {
    c in " \t\n\r" || c == '\U{0C}'
  }

  function NotWhite(): char -> bool {
    c => !IsWhite(c)
  }

  /** Up to two "=" that complete a group of four. */
  function WithoutPadding(t: string): string {
    if |t| % 4 == 0 && |t| > 0 && t[|t| - 1] == '='
    then (if t[|t| - 2] == '=' then t[..|t| - 2] else t[..|t| - 1]) else t
  }

  /** `atob`, the forgiving decoder, which skips white space. None where it throws. */
  function Atob(s: string): Option<Bytes> {
    var t := WithoutPadding(Filter(s, NotWhite()));
    if |t| % 4 == 1 || !InAlphabet(t) then None else Some(Octets(ValuesOf(t)))
  }

  // ------------------------------------------------------------ the two pages

  function Exchange(s: string, from: char, to: char): (r: string)
    ensures |r| == |s|
    ensures forall i :: 0 <= i < |s| ==> r[i] == if s[i] == from then to else s[i]
  {
    if s == "" then "" else [if s[0] == from then to else s[0]] + Exchange(s[1..], from, to)
  }

  /** `replace(/=+$/, "")` */
  function DropPadding(s: string): string {
    if s != "" && s[|s| - 1] == '=' then DropPadding(s[..|s| - 1]) else s
  }

  function Encode(b: Bytes): string {
    DropPadding(Exchange(Exchange(Btoa(b), '+', '-'), '/', '_'))
  }

  function Decode(s: string): Option<Bytes> {
    var t := Exchange(Exchange(s, '-', '+'), '_', '/');
    Atob(t + Padding(|t|))
  }

  /** `b64urlFromBytes`, with the binary text it builds as its list of codes. */
  method B64urlFromBytes(bytes: array<byte>) returns (s: string)
    ensures s == Encode(bytes[..])
  {
    var bin: Bytes := [];
    for i := 0 to bytes.Length
      invariant bin == bytes[..i]
    {
      bin := bin + [bytes[i]];
    }
    assert bin == bytes[..];
    return DropPadding(Exchange(Exchange(Btoa(bin), '+', '-'), '/', '_'));
  }

  /** `b64urlToBytes`; null where atob throws. */
  method B64urlToBytes(s: string) returns (out: array?<byte>)
    ensures out == null <==> Decode(s).None?
    ensures out != null ==> fresh(out) && Some(out[..]) == Decode(s)
  {
    var t := Exchange(Exchange(s, '-', '+'), '_', '/');
    var pad := |t| % 4;
    if pad != 0 {
      t := t + Padding(|t|);
    } else {
      assert t + Padding(|t|) == t;
    }
    var bin := Atob(t);
    if bin.None? {
      return null;
    }
    out := new byte[|bin.value|];
    for i := 0 to |bin.value|
      invariant out[..i] == bin.value[..i]
    {
      out[i] := bin.value[i];
    }
    assert out[..] == bin.value;
  }

  // ------------------------------------------------------------- round trip

  lemma {:induction false} NothingWhite(s: string)
    requires forall i :: 0 <= i < |s| ==> ValueOf(s[i]).Some? || s[i] == '='
    ensures Filter(s, NotWhite()) == s
  {
    if s != "" {
      NothingWhite(s[1..]);
      WhiteHasNoValue(s[0]);
      assert s == [s[0]] + s[1..];
    }
  }

  lemma WhiteHasNoValue(c: char)
    ensures ValueOf(c).Some? || c == '=' ==> !IsWhite(c)
  {
  }

  lemma PadsOfTwo(s: string)
    requires |s| % 4 == 2
    ensures WithoutPadding(s + "==") == s
  {
    var t := s + "==";
    assert |t| == |s| + 2 && t[|s|] == '=' && t[|s| + 1] == '=';
    assert t[..|s|] == s;
  }

  lemma PadsOfOne(s: string)
    requires |s| % 4 == 3 && s[|s| - 1] != '='
    ensures WithoutPadding(s + "=") == s
  {
    var t := s + "=";
    assert |t| == |s| + 1 && t[|s|] == '=' && t[|s| - 1] == s[|s| - 1];
    assert t[..|s|] == s;
  }

  lemma {:induction false} PaddingComesOff(s: string)
    requires InAlphabet(s) && |s| % 4 != 1
    ensures WithoutPadding(s + Padding(|s|)) == s
  {
    if |s| % 4 == 2 {
      PadsOfTwo(s);
    } else if |s| % 4 == 3 {
      PadsOfOne(s);
    } else {
      assert s + "" == s;
    }
  }

  lemma {:induction false} AtobOfPadded(s: string)
    requires InAlphabet(s) && |s| % 4 != 1
    ensures Atob(s + Padding(|s|)) == Some(Octets(ValuesOf(s)))
  {
    NothingWhite(s + Padding(|s|));
    PaddingComesOff(s);
  }

  lemma {:induction false} DropsOnlyPadding(s: string)
    requires '=' !in s
    ensures DropPadding(s) == s && DropPadding(s + "=") == s && DropPadding(s + "==") == s
  {
    assert s != "" ==> s[|s| - 1] in s;
    assert (s + "=")[..|s|] == s;
    assert (s + "==")[..|s| + 1] == s + "=";
  }

  /** The encoding is the unpadded one in the other alphabet. */
  function ToUrl(s: string): string {
    Exchange(Exchange(s, '+', '-'), '/', '_')
  }

  lemma {:induction false} EncodeIsUnpadded(b: Bytes)
    ensures Encode(b) == ToUrl(Unpadded(b))
  {
    ValuesOfChars(Sextets(b));
    var s := Unpadded(b);
    var p := Padding(|s|);
    assert ToUrl(s + p) == ToUrl(s) + p;
    assert forall i :: 0 <= i < |s| ==> ToUrl(s)[i] != '=';
    DropsOnlyPadding(ToUrl(s));
  }

  lemma {:induction false} ExchangeBack(s: string)
    requires InAlphabet(s)
    ensures Exchange(Exchange(ToUrl(s), '-', '+'), '_', '/') == s
  {
    var t := ToUrl(s);
    forall i | 0 <= i < |s| ensures Exchange(Exchange(t, '-', '+'), '_', '/')[i] == s[i] {
      assert ValueOf(s[i]).Some?;
    }
  }

  /** Decoding inverts encoding, for every list of bytes ... */
  lemma {:induction false} DecodeOfEncode(b: Bytes)
    ensures Decode(Encode(b)) == Some(b)
  {
    EncodeIsUnpadded(b);
    ValuesOfChars(Sextets(b));
    ExchangeBack(Unpadded(b));
    AtobOfPadded(Unpadded(b));
    OctetsOfSextets(b);
  }

  /** ... so no two lists share an encoding ... */
  lemma {:induction false} EncodeIsInjective(a: Bytes, b: Bytes)
    requires Encode(a) == Encode(b)
    ensures a == b
  {
    DecodeOfEncode(a);
    DecodeOfEncode(b);
  }

  /** ... and an encoding holds none but the letters of the URL alphabet: never a dot. */
  lemma {:induction false} EncodingHasNoDot(b: Bytes)
    ensures forall c :: c in Encode(b) ==>
              'A' <= c <= 'Z' || 'a' <= c <= 'z' || '0' <= c <= '9' || c == '-' || c == '_'
    ensures '.' !in Encode(b)
  {
    EncodeIsUnpadded(b);
    ValuesOfChars(Sextets(b));
    var s := Unpadded(b);
    forall i | 0 <= i < |s|
      ensures var c := ToUrl(s)[i];
              'A' <= c <= 'Z' || 'a' <= c <= 'z' || '0' <= c <= '9' || c == '-' || c == '_'
    {
      assert ValueOf(s[i]).Some?;
    }
  }
}
