/** Lower-case hexadecimal, the form in which hashes key Go maps and are compared.
    It is injective and keeps the lexicographic order, so the rest of the model keys
    blocks by their raw hash bytes. */
module Hex {
  import opened Words

  function HexDigit(n: int): (c: char)
    requires 0 <= n < 16
    ensures if n < 10 then c as int == '0' as int + n else c as int == 'a' as int + n - 10
  {
    if n < 10 then ('0' as int + n) as char else ('a' as int + (n - 10)) as char
  }

  function HexValue(c: char): (v: Option<int>)
    ensures v.Some? ==> 0 <= v.value < 16
  {
    if '0' <= c <= '9' then Some(c as int - '0' as int)
    else if 'a' <= c <= 'f' then Some(c as int - 'a' as int + 10)
    else if 'A' <= c <= 'F' then Some(c as int - 'A' as int + 10)
    else None
  }

  function Encode(b: Bytes): string {
    if b == [] then "" else [HexDigit(b[0] / 16), HexDigit(b[0] % 16)] + Encode(b[1..])
  }

  /** hex.DecodeString: odd lengths and foreign characters are errors, both cases are accepted. */
  function Decode(s: string): Option<Bytes> {
    if s == "" then Some([])
    else if |s| == 1 then None
    else
      match (HexValue(s[0]), HexValue(s[1]), Decode(s[2..]))
      case (Some(hi), Some(lo), Some(rest)) => Some([hi * 16 + lo] + rest)
      case _ => None
  }

  lemma {:induction false} RoundTrip(b: Bytes)
    ensures Decode(Encode(b)) == Some(b)
  {
    if b != [] {
      RoundTrip(b[1..]);
      assert b[0] / 16 * 16 + b[0] % 16 == b[0];
      assert Encode(b)[2..] == Encode(b[1..]);
      assert b == [b[0]] + b[1..];
    }
  }

  lemma EncodeInjective(a: Bytes, b: Bytes)
    requires Encode(a) == Encode(b)
    ensures a == b
  {
    RoundTrip(a);
    RoundTrip(b);
  }

  function Codes(s: string): seq<int> {
    if s == "" then [] else [s[0] as int] + Codes(s[1..])
  }

  /** Comparing hex strings is comparing the bytes they encode. */
  lemma {:induction false} EncodeKeepsOrder(a: Bytes, b: Bytes)
    ensures LexLess(Codes(Encode(a)), Codes(Encode(b))) <==> LexLess(a, b)
  {
    if b == [] {
    } else if a == [] {
      assert Codes(Encode(b)) != [];
    } else {
      EncodeKeepsOrder(a[1..], b[1..]);
      CodesOfEncode(a);
      CodesOfEncode(b);
      var x, y := Codes(Encode(a)), Codes(Encode(b));
      assert x[1..][1..] == Codes(Encode(a[1..]));
      assert y[1..][1..] == Codes(Encode(b[1..]));
    }
  }

  lemma CodesCons(c: char, s: string)
    ensures Codes([c] + s) == [c as int] + Codes(s)
  {
    assert ([c] + s)[1..] == s;
  }

  lemma {:induction false} CodesOfEncode(b: Bytes)
    requires b != []
    ensures Codes(Encode(b)) ==
            [HexDigit(b[0] / 16) as int, HexDigit(b[0] % 16) as int] + Codes(Encode(b[1..]))
  {
    var hi, lo, rest := HexDigit(b[0] / 16), HexDigit(b[0] % 16), Encode(b[1..]);
    assert Encode(b) == [hi] + ([lo] + rest);
    CodesCons(hi, [lo] + rest);
    CodesCons(lo, rest);
  }

  function UpperChar(c: char): char { if 'a' <= c <= 'f' then (c as int - 32) as char else c }

  /** The same hexadecimal in capitals. */
  function Upper(s: string): string {
    if s == "" then "" else [UpperChar(s[0])] + Upper(s[1..])
  }

  /** Decoding does not tell the case. */
  lemma {:induction false} CaseIgnored(s: string)
    ensures |Upper(s)| == |s| && Decode(Upper(s)) == Decode(s)
  {
    if |s| == 1 {
    } else if s != "" {
      CaseIgnored(s[2..]);
      assert Upper(s) == [UpperChar(s[0])] + ([UpperChar(s[1])] + Upper(s[2..]));
      assert Upper(s)[2..] == Upper(s[2..]);
      SameDigit(s[0]);
      SameDigit(s[1]);
    }
  }

  lemma SameDigit(c: char)
    ensures HexValue(UpperChar(c)) == HexValue(c)
  {
  }
}
