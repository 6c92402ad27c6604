/** `HashHelper.ComputeHash`: pick a digest by name, render it as lower-case
    hexadecimal. The digest functions themselves are a parameter. */
module HashHelper {
  import opened Wrappers
  import opened Strings

  type byte = b: int | 0 <= b < 256

  datatype HashAlgorithm = MD5 | SHA1 | SHA256 | SHA384 | SHA512

  function AlgorithmName(a: HashAlgorithm): string
  {
    match a
    case MD5 => "MD5"
    case SHA1 => "SHA1"
    case SHA256 => "SHA256"
    case SHA384 => "SHA384"
    case SHA512 => "SHA512"
  }

  /** Digest sizes in bytes (RFC 1321 for MD5, FIPS 180-4 for the SHA family). */
  function DigestSize(a: HashAlgorithm): nat
  {
    match a
    case MD5 => 16
    case SHA1 => 20
    case SHA256 => 32
    case SHA384 => 48
    case SHA512 => 64
  }

  /** A digest function produces digests of the standard size. */
  ghost predicate StandardSizes(digest: (HashAlgorithm, seq<byte>) -> seq<byte>)
  {
    forall a, data :: |digest(a, data)| == DigestSize(a)
  }

  datatype HashError = InvalidOperation

  /** The switch on `hashAlgorithm.ToUpperInvariant()`. */
  function ParseAlgorithm(name: string): (r: Option<HashAlgorithm>)
    ensures r.Some? ==> ToUpper(name) == AlgorithmName(r.value)
  {
    var upper := ToUpper(name);
    if upper == "MD5" then Some(MD5)
    else if upper == "SHA1" then Some(SHA1)
    else if upper == "SHA256" then Some(SHA256)
    else if upper == "SHA384" then Some(SHA384)
    else if upper == "SHA512" then Some(SHA512)
    else None
  }

  /** A name selects an algorithm exactly when it upper-cases to that
      algorithm's name; every other name is rejected. */
  lemma ParseAlgorithmIff(name: string, a: HashAlgorithm)
    ensures ParseAlgorithm(name) == Some(a) <==> ToUpper(name) == AlgorithmName(a)
  {
  }

  // ----- Hexadecimal -----

  function HexDigit(d: nat, upper: bool): char
    requires d < 16
  {
    if d < 10 then (d + '0' as int) as char
    else if upper then (d - 10 + 'A' as int) as char
    else (d - 10 + 'a' as int) as char
  }

  /** `BitConverter.ToString`: upper-case pairs separated by '-'. */
  function BitConverterToString(bytes: seq<byte>): string
  {
    if bytes == [] then ""
    else if |bytes| == 1 then [HexDigit(bytes[0] / 16, true), HexDigit(bytes[0] % 16, true)]
    else [HexDigit(bytes[0] / 16, true), HexDigit(bytes[0] % 16, true), '-'] + BitConverterToString(bytes[1..])
  }

  /** `s.Replace("-", "")`. */
  function RemoveDashes(s: string): string
  {
    if s == [] then "" else (if s[0] == '-' then "" else [s[0]]) + RemoveDashes(s[1..])
  }

  /** Lower-case hexadecimal, two characters per byte, no separators. */
  function Hex(bytes: seq<byte>): (h: string)
    ensures |h| == 2 * |bytes|
  {
    if bytes == [] then "" else [HexDigit(bytes[0] / 16, false), HexDigit(bytes[0] % 16, false)] + Hex(bytes[1..])
  }

  function HexValue(c: char): nat
  {
    if '0' <= c <= '9' then c as int - '0' as int
    else if 'a' <= c <= 'f' then c as int - 'a' as int + 10
    else 0
  }

  /** Reads lower-case hexadecimal back into bytes. */
  function Unhex(h: string): seq<byte>
    requires |h| % 2 == 0
  {
    if h == [] then [] else
      var v := HexValue(h[0]) * 16 + HexValue(h[1]);
      [if v < 256 then v else 0] + Unhex(h[2..])
  }

  lemma {:induction false} RemoveDashesConcat(a: string, b: string)
    ensures RemoveDashes(a + b) == RemoveDashes(a) + RemoveDashes(b)
    decreases |a|
  {
    if a == [] {
      assert a + b == b;
    } else {
      assert (a + b)[1..] == a[1..] + b;
      RemoveDashesConcat(a[1..], b);
    }
  }

  lemma {:induction false} ToLowerConcat(a: string, b: string)
    ensures ToLower(a + b) == ToLower(a) + ToLower(b)
  {
  }

  /** The three string steps of the source compute `Hex`. */
  lemma {:induction false} RenderedIsHex(bytes: seq<byte>)
    ensures ToLower(RemoveDashes(BitConverterToString(bytes))) == Hex(bytes)
    decreases |bytes|
  {
    if bytes != [] {
      var b := bytes[0];
      var pair := [HexDigit(b / 16, true), HexDigit(b % 16, true)];
      var lower := [HexDigit(b / 16, false), HexDigit(b % 16, false)];
      PairRendering(b);
      assert Hex(bytes) == lower + Hex(bytes[1..]);
      if |bytes| == 1 {
        assert Hex(bytes[1..]) == [];
        assert BitConverterToString(bytes) == pair;
        assert lower + [] == lower;
      } else {
        var rest := BitConverterToString(bytes[1..]);
        assert BitConverterToString(bytes) == pair + ("-" + rest);
        RenderedIsHex(bytes[1..]);
        RenderedStep(pair, lower, rest, Hex(bytes[1..]));
      }
    }
  }

  /** A dash-separated pair followed by the rest renders as the pair's
      lower-case digits followed by the rest's rendering. */
  lemma RenderedStep(pair: string, lower: string, rest: string, hexRest: string)
    requires RemoveDashes(pair) == pair && ToLower(pair) == lower
    requires ToLower(RemoveDashes(rest)) == hexRest
    ensures ToLower(RemoveDashes(pair + ("-" + rest))) == lower + hexRest
  {
    RemoveDashesConcat(pair, "-" + rest);
    RemoveDashesConcat("-", rest);
    assert RemoveDashes("-") == "";
    assert "" + RemoveDashes(rest) == RemoveDashes(rest);
    ToLowerConcat(pair, RemoveDashes(rest));
  }

  /** The two upper-case digits of a byte hold no dash and lower-case to
      the lower-case digits. */
  lemma PairRendering(b: byte)
    ensures var pair := [HexDigit(b / 16, true), HexDigit(b % 16, true)];
      && RemoveDashes(pair) == pair
      && ToLower(pair) == [HexDigit(b / 16, false), HexDigit(b % 16, false)]
  {
    var pair := [HexDigit(b / 16, true), HexDigit(b % 16, true)];
    assert pair[1..] == [pair[1]] && pair[1..][1..] == [];
    assert pair[0] != '-' && pair[1] != '-';
    assert RemoveDashes(pair[1..]) == [pair[1]];
  }

  /** Decoding the hexadecimal gives back the digest bytes. */
  lemma {:induction false} UnhexHex(bytes: seq<byte>)
    ensures Unhex(Hex(bytes)) == bytes
    decreases |bytes|
  {
    if bytes != [] {
      var h := Hex(bytes);
      assert h[2..] == Hex(bytes[1..]);
      assert HexValue(h[0]) == bytes[0] / 16;
      assert HexValue(h[1]) == bytes[0] % 16;
      UnhexHex(bytes[1..]);
    }
  }

  /** Every character of the rendering is a lower-case hexadecimal digit. */
  lemma {:induction false} HexAlphabet(bytes: seq<byte>)
    ensures forall i :: 0 <= i < |Hex(bytes)| ==> '0' <= Hex(bytes)[i] <= '9' || 'a' <= Hex(bytes)[i] <= 'f'
    decreases |bytes|
  {
    if bytes != [] {
      HexAlphabet(bytes[1..]);
    }
  }

  function ComputeHash(data: seq<byte>, hashAlgorithm: string, digest: (HashAlgorithm, seq<byte>) -> seq<byte>)
    : (r: Result<string, HashError>)
    ensures r.Failure? <==> ParseAlgorithm(hashAlgorithm).None?
    ensures r.Success? ==> r.value == Hex(digest(ParseAlgorithm(hashAlgorithm).value, data))
  {
    match ParseAlgorithm(hashAlgorithm)
    case None => Failure(InvalidOperation)
    case Some(a) =>
      RenderedIsHex(digest(a, data));
      Success(ToLower(RemoveDashes(BitConverterToString(digest(a, data)))))
  }

  /** With standard digest sizes the rendering is 32, 40, 64, 96 or 128
      characters long, and decodes back to the digest. */
  lemma ComputeHashShape(data: seq<byte>, a: HashAlgorithm, digest: (HashAlgorithm, seq<byte>) -> seq<byte>)
    requires StandardSizes(digest)
    ensures ComputeHash(data, AlgorithmName(a), digest).Success?
    ensures var h := ComputeHash(data, AlgorithmName(a), digest).value;
      && |h| == 2 * DigestSize(a)
      && |h| in {32, 40, 64, 96, 128}
      && Unhex(h) == digest(a, data)
  {
    UpperOfName(a);
    assert ParseAlgorithm(AlgorithmName(a)) == Some(a);
    UnhexHex(digest(a, data));
  }

  /** Each algorithm is selected by its own name. */
  lemma NamedAlgorithmAccepted(a: HashAlgorithm)
    ensures ParseAlgorithm(AlgorithmName(a)) == Some(a)
  {
    UpperOfName(a);
  }

  /** The algorithm names are already upper case. */
  lemma UpperOfName(a: HashAlgorithm)
    ensures ToUpper(AlgorithmName(a)) == AlgorithmName(a)
  {
    var n := AlgorithmName(a);
    assert forall i :: 0 <= i < |n| ==> UpperChar(n[i]) == n[i];
  }
}
